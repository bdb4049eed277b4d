/**
 The forest that BZ2_hbMakeCodeLengths (dep/bzip2/huffman.c) grows in its
 parent and weight arrays: nodes 1..alphaSize are the symbols, every later
 node joins two earlier ones. A weight cell holds 256 * weight + height.
 */
module CodeLengthTree {
  import opened KraftSum

  function WeightOf(cell: int): int {
    cell / 256
  }

  function HeightOf(cell: int): (height: nat)
    ensures height < 256
  {
    cell % 256
  }

  function Max(x: int, y: int): int {
    if x > y then x else y
  }

  /** ADDWEIGHTS: the weights add up, the joined node is one higher than its higher part. */
  function AddWeights(z1: int, z2: int): int {
    256 * (WeightOf(z1) + WeightOf(z2)) + (1 + Max(HeightOf(z1), HeightOf(z2)))
  }

  function Fib(n: nat): nat {
    if n < 2 then n else Fib(n - 1) + Fib(n - 2)
  }

  lemma {:induction false} FibMonotone(m: nat, n: nat)
    requires m <= n
    ensures Fib(m) <= Fib(n)
    decreases n
  {
    if m < n {
      FibMonotone(m, n - 1);
    }
  }

  lemma FibValues()
    ensures Fib(15) == 610 && Fib(35) == 9227465
  {
    assert Fib(5) == 5 && Fib(6) == 8;
    assert Fib(10) == 55 && Fib(11) == 89;
    assert Fib(15) == 610 && Fib(16) == 987;
    assert Fib(20) == 6765 && Fib(21) == 10946;
    assert Fib(25) == 75025 && Fib(26) == 121393;
    assert Fib(30) == 832040 && Fib(31) == 1346269;
  }

  /** Every node up to t is a root (parent -1) or hangs under a later joined node. */
  ghost predicate ParentsUp(parent: seq<int>, a: int, t: int) {
    && 1 <= a <= t < |parent|
    && forall k :: 1 <= k <= t ==> parent[k] == -1 || (k < parent[k] <= t && a < parent[k])
  }

  /** Node p > a was made by joining the two nodes kids[p], and nothing else hangs under it. */
  ghost predicate Forest(parent: seq<int>, weight: seq<int>, a: int, t: int, kids: seq<(int, int)>) {
    && ParentsUp(parent, a, t) && t < |weight| && |kids| == t + 1
    && (forall p :: a < p <= t ==> JoinedFrom(parent, weight, p, kids[p].0, kids[p].1))
    && (forall k :: 1 <= k <= t && parent[k] != -1 ==> k == kids[parent[k]].0 || k == kids[parent[k]].1)
  }

  ghost predicate JoinedFrom(parent: seq<int>, weight: seq<int>, p: int, x: int, y: int)
    requires 0 <= p < |weight| && 0 <= p < |parent|
  {
    && 1 <= x < p && 1 <= y < p && x != y && parent[x] == p && parent[y] == p
    && weight[p] == AddWeights(weight[x], weight[y])
  }

  /** The queued nodes are exactly the roots, once each. */
  ghost predicate Rooted(parent: seq<int>, t: int, queued: multiset<int>)
    requires t < |parent|
  {
    forall k :: queued[k] == if 1 <= k <= t && parent[k] == -1 then 1 else 0
  }

  /** The total weight of the roots among nodes 1..k. */
  ghost function RootWeight(parent: seq<int>, weight: seq<int>, k: int): int
    requires k < |parent| && k < |weight|
    decreases k
  {
    if k <= 0 then 0
    else RootWeight(parent, weight, k - 1) + if parent[k] == -1 then WeightOf(weight[k]) else 0
  }

  /**
   The balance that bounds the height of the tree: a node of height h weighs at
   least Fib(h + 2), and no root is lighter than a node that has been joined already.
   */
  ghost predicate Balanced(parent: seq<int>, weight: seq<int>, t: int, joined: int)
    requires t < |parent| && t < |weight|
  {
    && (forall k :: 1 <= k <= t ==> 0 <= weight[k] && WeightOf(weight[k]) >= Fib(HeightOf(weight[k]) + 2))
    && (forall k :: 1 <= k <= t && parent[k] != -1 ==> WeightOf(weight[k]) <= joined)
    && (forall k :: 1 <= k <= t && parent[k] == -1 ==> joined <= WeightOf(weight[k]))
  }

  /** A node's height is above the height of everything hanging under it. */
  ghost predicate Stacked(parent: seq<int>, weight: seq<int>, t: int)
    requires t < |parent| && t < |weight|
  {
    && (forall k :: 1 <= k <= t && parent[k] != -1 ==>
          1 <= parent[k] <= t && HeightOf(weight[k]) < HeightOf(weight[parent[k]]))
  }

  lemma {:induction false} RootsOutweigh(parent: seq<int>, weight: seq<int>, k: int)
    requires k < |parent| && k < |weight|
    requires forall i :: 1 <= i <= k ==> 0 <= weight[i]
    ensures 0 <= RootWeight(parent, weight, k)
    ensures forall i :: 1 <= i <= k && parent[i] == -1 ==> WeightOf(weight[i]) <= RootWeight(parent, weight, k)
    ensures forall i, j :: 1 <= i < j <= k && parent[i] == -1 && parent[j] == -1 ==>
                             WeightOf(weight[i]) + WeightOf(weight[j]) <= RootWeight(parent, weight, k)
    decreases k
  {
    if k > 0 {
      RootsOutweigh(parent, weight, k - 1);
    }
  }

  /** Joining two roots takes their weights out and puts the sum back in. */
  lemma {:induction false} JoinRootWeight(
      parent: seq<int>, weight: seq<int>, k: int, x: int, y: int, p: int, cell: int)
    requires 0 <= k < p < |parent| && p < |weight| && x != y
    requires 1 <= x < p && 1 <= y < p && parent[x] == -1 && parent[y] == -1
    ensures var P := parent[x := p][y := p][p := -1];
            RootWeight(P, weight[p := cell], k)
            == RootWeight(parent, weight, k)
               - (if x <= k then WeightOf(weight[x]) else 0) - (if y <= k then WeightOf(weight[y]) else 0)
    decreases k
  {
    if k > 0 {
      JoinRootWeight(parent, weight, k - 1, x, y, p, cell);
    }
  }

  lemma FibBoundsHeight(cell: int, n: nat, total: int)
    requires 0 <= cell && WeightOf(cell) >= Fib(HeightOf(cell) + 2)
    requires WeightOf(cell) <= total < Fib(n)
    ensures HeightOf(cell) + 2 < n
  {
    if HeightOf(cell) + 2 >= n {
      FibMonotone(n, HeightOf(cell) + 2);
    }
  }

  /** Everything known about the arrays between two joins. */
  ghost predicate Growing(
      parent: seq<int>, weight: seq<int>, a: int, t: int, kids: seq<(int, int)>, joined: int, total: int) {
    && Forest(parent, weight, a, t, kids)
    && Balanced(parent, weight, t, joined)
    && Stacked(parent, weight, t)
    && (forall k :: 1 <= k <= a ==> 256 <= weight[k] && HeightOf(weight[k]) == 0)
    && RootWeight(parent, weight, t) == total && total < 0x80_0000
  }

  lemma JoinCell(z1: int, z2: int)
    requires 0 <= z1 && 0 <= z2 && HeightOf(z1) < 255 && HeightOf(z2) < 255
    ensures 0 <= AddWeights(z1, z2)
    ensures WeightOf(AddWeights(z1, z2)) == WeightOf(z1) + WeightOf(z2)
    ensures HeightOf(AddWeights(z1, z2)) == 1 + Max(HeightOf(z1), HeightOf(z2))
  {
  }

  ghost predicate LightestTwo(parent: seq<int>, weight: seq<int>, t: int, x: int, y: int)
    requires t < |parent| && t < |weight|
  {
    && 1 <= x <= t && 1 <= y <= t && x != y && parent[x] == -1 && parent[y] == -1
    && weight[x] <= weight[y]
    && forall k :: 1 <= k <= t && parent[k] == -1 && k != x ==> weight[y] <= weight[k]
  }

  /** A joined node one of whose parts is a level lower and was no heavier than any root. */
  lemma HigherPart(parent: seq<int>, weight: seq<int>, a: int, t: int, kids: seq<(int, int)>, joined: int, c: int)
    requires Forest(parent, weight, a, t, kids) && Balanced(parent, weight, t, joined)
    requires forall k :: 1 <= k <= t ==> HeightOf(weight[k]) < 255
    requires a < c <= t
    ensures HeightOf(weight[c]) >= 1 && Fib(HeightOf(weight[c]) - 1 + 2) <= joined
  {
    var (u, v) := kids[c];
    assert JoinedFrom(parent, weight, c, u, v);
    JoinCell(weight[u], weight[v]);
    hide AddWeights, WeightOf, HeightOf, Fib;
    if HeightOf(weight[u]) > HeightOf(weight[v]) {
      assert WeightOf(weight[u]) >= Fib(HeightOf(weight[u]) + 2);
    } else {
      assert WeightOf(weight[v]) >= Fib(HeightOf(weight[v]) + 2);
    }
  }

  lemma HeightsSmall(parent: seq<int>, weight: seq<int>, t: int, joined: int, total: int, r: int, k: int)
    requires 1 <= t < |parent| && t < |weight| && Balanced(parent, weight, t, joined)
    requires RootWeight(parent, weight, t) == total && total < 0x80_0000
    requires 1 <= r <= t && parent[r] == -1 && 1 <= k <= t
    ensures HeightOf(weight[k]) < 33
  {
    hide WeightOf, HeightOf, Fib;
    RootsOutweigh(parent, weight, t);
    assert WeightOf(weight[k]) <= total;
    FibValues();
    FibBoundsHeight(weight[k], 35, total);
  }

  /** The joined cell: it fits 32 bits, its height field does not overflow, and it is balanced. */
  lemma JoinFits(parent: seq<int>, weight: seq<int>, a: int, t: int, kids: seq<(int, int)>,
                 joined: int, total: int, x: int, y: int)
    requires Growing(parent, weight, a, t, kids, joined, total)
    requires LightestTwo(parent, weight, t, x, y)
    ensures var cell := AddWeights(weight[x], weight[y]);
            && 0 <= cell < 0x8000_0000
            && WeightOf(cell) == WeightOf(weight[x]) + WeightOf(weight[y])
            && HeightOf(cell) == 1 + Max(HeightOf(weight[x]), HeightOf(weight[y]))
            && WeightOf(cell) >= Fib(HeightOf(cell) + 2)
  {
    forall k | 1 <= k <= t
      ensures HeightOf(weight[k]) < 33
    {
      HeightsSmall(parent, weight, t, joined, total, x, k);
    }
    RootsOutweigh(parent, weight, t);
    JoinCell(weight[x], weight[y]);
    var c := if HeightOf(weight[x]) > HeightOf(weight[y]) then x else y;
    var h := HeightOf(weight[c]);
    assert Fib(h + 3) == Fib(h + 2) + Fib(h + 1);
    assert AddWeights(weight[x], weight[y]) < 256 * total + 256;
    hide AddWeights, WeightOf, HeightOf;
    if c > a {
      HigherPart(parent, weight, a, t, kids, joined, c);
    }
  }

  lemma JoinForest(parent: seq<int>, weight: seq<int>, a: int, t: int, kids: seq<(int, int)>, x: int, y: int)
    requires Forest(parent, weight, a, t, kids) && t + 1 < |parent| && t + 1 < |weight|
    requires 1 <= x <= t && 1 <= y <= t && x != y && parent[x] == -1 && parent[y] == -1
    ensures Forest(parent[x := t + 1][y := t + 1][t + 1 := -1], weight[t + 1 := AddWeights(weight[x], weight[y])],
                   a, t + 1, kids + [(x, y)])
  {
    hide AddWeights;
    var P := parent[x := t + 1][y := t + 1][t + 1 := -1];
    var W := weight[t + 1 := AddWeights(weight[x], weight[y])];
    var K := kids + [(x, y)];
    forall p | a < p <= t + 1
      ensures JoinedFrom(P, W, p, K[p].0, K[p].1)
    {
      if p <= t {
        assert K[p] == kids[p] && JoinedFrom(parent, weight, p, kids[p].0, kids[p].1);
      }
    }
    forall k | 1 <= k <= t + 1 && P[k] != -1
      ensures k == K[P[k]].0 || k == K[P[k]].1
    {
      if k == x || k == y {
        assert P[k] == t + 1 && K[t + 1] == (x, y);
      } else {
        assert P[k] == parent[k] && K[parent[k]] == kids[parent[k]];
      }
    }
    assert ParentsUp(P, a, t + 1);
  }

  /** Joining the two lightest roots keeps all that is known about the arrays. */
  lemma Join(parent: seq<int>, weight: seq<int>, a: int, t: int, kids: seq<(int, int)>,
             joined: int, total: int, x: int, y: int)
    requires Growing(parent, weight, a, t, kids, joined, total)
    requires LightestTwo(parent, weight, t, x, y) && t + 1 < |parent| && t + 1 < |weight|
    ensures Growing(parent[x := t + 1][y := t + 1][t + 1 := -1],
                    weight[t + 1 := AddWeights(weight[x], weight[y])],
                    a, t + 1, kids + [(x, y)], WeightOf(weight[y]), total)
  {
    hide Balanced, Stacked;
    JoinForest(parent, weight, a, t, kids, x, y);
    JoinFits(parent, weight, a, t, kids, joined, total, x, y);
    JoinRootWeight(parent, weight, t, x, y, t + 1, AddWeights(weight[x], weight[y]));
    JoinBalanced(parent, weight, t, joined, x, y);
    JoinStacked(parent, weight, t, x, y);
  }

  lemma JoinBalanced(parent: seq<int>, weight: seq<int>, t: int, joined: int, x: int, y: int)
    requires 1 <= t && t + 1 < |parent| && t + 1 < |weight|
    requires Balanced(parent, weight, t, joined) && LightestTwo(parent, weight, t, x, y)
    requires var cell := AddWeights(weight[x], weight[y]);
             && 0 <= cell && WeightOf(cell) == WeightOf(weight[x]) + WeightOf(weight[y])
             && WeightOf(cell) >= Fib(HeightOf(cell) + 2)
    ensures Balanced(parent[x := t + 1][y := t + 1][t + 1 := -1],
                     weight[t + 1 := AddWeights(weight[x], weight[y])], t + 1, WeightOf(weight[y]))
  {
    assert WeightOf(weight[x]) <= WeightOf(weight[y]);
    forall k | 1 <= k <= t && parent[k] == -1 && k != x
      ensures WeightOf(weight[y]) <= WeightOf(weight[k])
    {
    }
    hide AddWeights, WeightOf, HeightOf, Fib;
  }

  lemma JoinStacked(parent: seq<int>, weight: seq<int>, t: int, x: int, y: int)
    requires 1 <= t && t + 1 < |parent| && t + 1 < |weight|
    requires Stacked(parent, weight, t)
    requires 1 <= x <= t && 1 <= y <= t
    requires HeightOf(AddWeights(weight[x], weight[y])) == 1 + Max(HeightOf(weight[x]), HeightOf(weight[y]))
    ensures Stacked(parent[x := t + 1][y := t + 1][t + 1 := -1],
                    weight[t + 1 := AddWeights(weight[x], weight[y])], t + 1)
  {
    hide AddWeights, HeightOf;
  }

  /** The start: only the symbols, each a root of height 0. */
  lemma {:induction false} Sprouts(parent: seq<int>, weight: seq<int>, a: int, k: int)
    requires 0 <= k <= a < |parent| && a < |weight|
    requires forall i :: 1 <= i <= a ==> parent[i] == -1
    ensures RootWeight(parent, weight, k) == CellSum(weight, k)
  {
    if k > 0 {
      Sprouts(parent, weight, a, k - 1);
    }
  }

  /** The sum of the weights in cells 1..k. */
  ghost function CellSum(weight: seq<int>, k: int): int
    requires k < |weight|
    decreases k
  {
    if k <= 0 then 0 else CellSum(weight, k - 1) + WeightOf(weight[k])
  }

  /** A symbol cell: a positive weight and height 0. */
  ghost predicate SymbolCells(weight: seq<int>, a: int) {
    0 <= a < |weight| && forall i :: 1 <= i <= a ==> 256 <= weight[i] && HeightOf(weight[i]) == 0
  }

  lemma GrowingStart(parent: seq<int>, weight: seq<int>, a: int)
    requires 1 <= a < |parent| && SymbolCells(weight, a) && CellSum(weight, a) < 0x80_0000
    requires forall i :: 1 <= i <= a ==> parent[i] == -1
    ensures Growing(parent, weight, a, a, seq(a + 1, _ => (0, 0)), 0, CellSum(weight, a))
  {
    Sprouts(parent, weight, a, a);
    assert Fib(2) == 1;
  }

  // The shape of the finished tree.

  /** The number of parent links from node k to its root: what the length loop counts. */
  ghost function Depth(parent: seq<int>, a: int, t: int, k: int): nat
    requires ParentsUp(parent, a, t) && 1 <= k <= t
    decreases t - k
  {
    if parent[k] == -1 then 0 else 1 + Depth(parent, a, t, parent[k])
  }

  /** No node is deeper than the root is high. */
  lemma {:induction false} DepthBelowHeight(parent: seq<int>, weight: seq<int>, a: int, t: int, k: int)
    requires ParentsUp(parent, a, t) && t < |weight| && Stacked(parent, weight, t)
    requires forall i :: 1 <= i < t ==> parent[i] != -1
    requires 1 <= k <= t
    ensures Depth(parent, a, t, k) + HeightOf(weight[k]) <= HeightOf(weight[t])
    decreases t - k
  {
    if parent[k] != -1 {
      DepthBelowHeight(parent, weight, a, t, parent[k]);
    }
  }

  /**
   The nodes 1..k that lie on or below the cut c while their parent lies above
   it, each counted 2 to the power of minus its depth.
   */
  ghost function Cut(parent: seq<int>, a: int, t: int, c: int, k: int): real
    requires ParentsUp(parent, a, t) && 0 <= k <= t
  {
    if k == 0 then 0.0
    else Cut(parent, a, t, c, k - 1)
         + if parent[k] == -1 || parent[k] > c then Half(Depth(parent, a, t, k)) else 0.0
  }

  /** Lowering the cut by one trades nothing but the children of node c below it. */
  lemma {:induction false} LowerCutStep(parent: seq<int>, a: int, t: int, c: int, k: int, x: int, y: int)
    requires ParentsUp(parent, a, t) && 0 <= k < c <= t
    requires 1 <= x < c && 1 <= y < c && x != y && parent[x] == c && parent[y] == c
    requires forall i :: 1 <= i <= t && parent[i] == c ==> i == x || i == y
    ensures Cut(parent, a, t, c - 1, k)
         == Cut(parent, a, t, c, k)
            + (if x <= k then Half(Depth(parent, a, t, x)) else 0.0)
            + (if y <= k then Half(Depth(parent, a, t, y)) else 0.0)
  {
    if k > 0 {
      LowerCutStep(parent, a, t, c, k - 1, x, y);
    }
  }

  /** Every cut of the finished tree counts exactly 1. */
  lemma {:induction false} EveryCutIsOne(parent: seq<int>, weight: seq<int>, a: int, t: int, kids: seq<(int, int)>, c: int)
    requires Forest(parent, weight, a, t, kids) && a <= c <= t
    requires parent[t] == -1 && forall i :: 1 <= i < t ==> parent[i] != -1
    ensures Cut(parent, a, t, c, c) == 1.0
    decreases t - c
  {
    if c == t {
      TopCut(parent, a, t, t - 1);
    } else {
      EveryCutIsOne(parent, weight, a, t, kids, c + 1);
      var (x, y) := kids[c + 1];
      assert JoinedFrom(parent, weight, c + 1, x, y);
      hide Forest;
      LowerCutStep(parent, a, t, c + 1, c, x, y);
      assert Depth(parent, a, t, x) == 1 + Depth(parent, a, t, c + 1) == Depth(parent, a, t, y);
    }
  }

  lemma {:induction false} TopCut(parent: seq<int>, a: int, t: int, k: int)
    requires ParentsUp(parent, a, t) && 0 <= k < t
    requires forall i :: 1 <= i < t ==> parent[i] != -1
    ensures Cut(parent, a, t, t, k) == 0.0
  {
    if k > 0 {
      TopCut(parent, a, t, k - 1);
    }
  }

  lemma {:induction false} KraftIsCut(parent: seq<int>, a: int, t: int, k: int, lens: seq<nat>)
    requires ParentsUp(parent, a, t) && 0 <= k <= a && |lens| == k
    requires forall i :: 0 <= i < k ==> lens[i] == Depth(parent, a, t, i + 1)
    ensures Kraft(lens) == Cut(parent, a, t, a, k)
  {
    if k > 0 {
      KraftIsCut(parent, a, t, k - 1, lens[..k - 1]);
    }
  }
}
