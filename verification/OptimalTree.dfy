/** Why the tree that BZ2_hbMakeCodeLengths (dep/bzip2/huffman.c) grows gives lengths that no other code undercuts. */
module OptimalTree {
  import opened KraftSum
  import opened CodeLengthTree
  import opened CodeCost

  /** The roots among nodes 1..t. */
  ghost function Roots(parent: seq<int>, t: nat): (live: seq<bool>)
    requires t < |parent|
    ensures |live| == t && forall i :: 0 <= i < t ==> live[i] == (parent[i + 1] == -1)
  {
    seq(t, i requires 0 <= i < t => parent[i + 1] == -1)
  }

  ghost function Weights(weight: seq<int>, t: nat): (w: seq<int>)
    requires t < |weight|
    ensures |w| == t && forall i :: 0 <= i < t ==> w[i] == WeightOf(weight[i + 1])
  {
    seq(t, i requires 0 <= i < t => WeightOf(weight[i + 1]))
  }

  /** The weights of the nodes that have been joined, above a. */
  ghost function Spent(weight: seq<int>, a: nat, t: nat): int
    requires t < |weight|
  {
    if t <= a then 0 else Spent(weight, a, t - 1) + WeightOf(weight[t])
  }

  ghost predicate Thrifty(parent: seq<int>, weight: seq<int>, a: nat, t: nat, ws: seq<int>)
    requires t < |parent| && t < |weight|
  {
    Frugal(Roots(parent, t), Weights(weight, t), Spent(weight, a, t), ws)
  }

  lemma ThriftyStart(parent: seq<int>, weight: seq<int>, a: nat)
    requires a < |parent| && a < |weight| && forall i :: 1 <= i <= a ==> parent[i] == -1
    ensures Thrifty(parent, weight, a, a, Weights(weight, a))
  {
    hide Frugal, WeightOf;
    FrugalStart(Weights(weight, a));
    assert Roots(parent, a) == AllLive(a);
  }

  lemma {:induction false} SpentSame(w: seq<int>, v: seq<int>, a: nat, t: nat)
    requires t < |w| && t < |v| && forall k :: 0 <= k <= t ==> w[k] == v[k]
    ensures Spent(w, a, t) == Spent(v, a, t)
  {
    hide WeightOf;
    if t > a { SpentSame(w, v, a, t - 1); }
  }

  lemma LightRoots(parent: seq<int>, weight: seq<int>, t: nat, x: int, y: int)
    requires t < |parent| && t < |weight| && LightestTwo(parent, weight, t, x, y)
    requires forall k :: 1 <= k <= t ==> 0 <= weight[k]
    ensures 1 <= x <= t && 1 <= y <= t && LightTwo(Roots(parent, t), Weights(weight, t), x - 1, y - 1)
  {
  }

  /** Joining the two lightest roots. */
  lemma ThriftyStep(parent: seq<int>, weight: seq<int>, a: nat, t: nat, x: int, y: int, ws: seq<int>)
    requires a <= t && t + 1 < |parent| && t + 1 < |weight| && LightestTwo(parent, weight, t, x, y)
    requires forall k :: 1 <= k <= t ==> 0 <= weight[k]
    requires WeightOf(AddWeights(weight[x], weight[y])) == WeightOf(weight[x]) + WeightOf(weight[y])
    requires Thrifty(parent, weight, a, t, ws)
    ensures Thrifty(parent[x := t + 1][y := t + 1][t + 1 := -1], weight[t + 1 := AddWeights(weight[x], weight[y])], a, t + 1, ws)
  {
    var P, W := parent[x := t + 1][y := t + 1][t + 1 := -1], weight[t + 1 := AddWeights(weight[x], weight[y])];
    var live, w := Roots(parent, t), Weights(weight, t);
    LightRoots(parent, weight, t, x, y);
    hide Frugal, WeightOf, AddWeights, LightTwo;
    FrugalStep(live, w, Spent(weight, a, t), ws, x - 1, y - 1);
    assert Roots(P, t + 1) == live[x - 1 := false][y - 1 := false] + [true];
    assert Weights(W, t + 1) == w + [w[x - 1] + w[y - 1]];
    SpentSame(weight, W, a, t);
  }

  // The cost of the finished tree.

  function PathCost(w: int, n: nat): int {
    w * n
  }

  /** The nodes 1..k that lie on or below the cut c while their parent lies above it, each with its weight times its depth. */
  ghost function CutCost(parent: seq<int>, weight: seq<int>, a: int, t: int, c: int, k: int): int
    requires ParentsUp(parent, a, t) && t < |weight| && 0 <= k <= t
  {
    if k == 0 then 0
    else CutCost(parent, weight, a, t, c, k - 1)
         + if parent[k] == -1 || parent[k] > c then PathCost(WeightOf(weight[k]), Depth(parent, a, t, k)) else 0
  }

  lemma {:induction false} LowerCutCost(parent: seq<int>, weight: seq<int>, a: int, t: int, c: int, k: int, x: int, y: int)
    requires ParentsUp(parent, a, t) && t < |weight| && 0 <= k < c <= t
    requires 1 <= x < c && 1 <= y < c && x != y && parent[x] == c && parent[y] == c
    requires forall i :: 1 <= i <= t && parent[i] == c ==> i == x || i == y
    ensures CutCost(parent, weight, a, t, c - 1, k)
         == CutCost(parent, weight, a, t, c, k)
            + (if x <= k then PathCost(WeightOf(weight[x]), Depth(parent, a, t, x)) else 0)
            + (if y <= k then PathCost(WeightOf(weight[y]), Depth(parent, a, t, y)) else 0)
  {
    hide WeightOf, Depth;
    if k > 0 {
      LowerCutCost(parent, weight, a, t, c, k - 1, x, y);
    }
  }

  /** Every cut of the finished tree costs what the joins above it have cost. */
  lemma {:induction false} EveryCutCosts(parent: seq<int>, weight: seq<int>, a: int, t: int, kids: seq<(int, int)>, c: int)
    requires Forest(parent, weight, a, t, kids) && a <= c <= t
    requires parent[t] == -1 && forall i :: 1 <= i < t ==> parent[i] != -1
    requires forall p :: a < p <= t ==> WeightOf(weight[p]) == WeightOf(weight[kids[p].0]) + WeightOf(weight[kids[p].1])
    ensures CutCost(parent, weight, a, t, c, c) + Spent(weight, a, c) == Spent(weight, a, t)
    decreases t - c
  {
    hide *;
    ForestParts(parent, weight, a, t, kids);
    if c == t {
      TopCutIsFree(parent, weight, a, t);
    } else {
      EveryCutCosts(parent, weight, a, t, kids, c + 1);
      var (x, y) := kids[c + 1];
      JoinedAt(parent, weight, a, t, kids, c + 1);
      LowerCutCost(parent, weight, a, t, c + 1, c, x, y);
      CutNext(parent, weight, a, t, c + 1);
      DepthNext(parent, a, t, x);
      DepthNext(parent, a, t, y);
      OneDeeper(WeightOf(weight[x]), WeightOf(weight[y]), Depth(parent, a, t, c + 1));
      SpentNext(weight, a, c + 1);
    }
  }

  lemma ForestParts(parent: seq<int>, weight: seq<int>, a: int, t: int, kids: seq<(int, int)>)
    requires Forest(parent, weight, a, t, kids)
    ensures ParentsUp(parent, a, t) && 1 <= a <= t < |parent| && t < |weight| && |kids| == t + 1
  {
  }

  lemma TopCutIsFree(parent: seq<int>, weight: seq<int>, a: int, t: int)
    requires ParentsUp(parent, a, t) && t < |weight| && parent[t] == -1 && forall i :: 1 <= i < t ==> parent[i] != -1
    ensures CutCost(parent, weight, a, t, t, t) == 0
  {
    TopCutCost(parent, weight, a, t, t - 1);
  }

  lemma JoinedAt(parent: seq<int>, weight: seq<int>, a: int, t: int, kids: seq<(int, int)>, p: int)
    requires Forest(parent, weight, a, t, kids) && a < p <= t
    ensures ParentsUp(parent, a, t) && 1 <= a && t < |parent| && t < |weight| && |kids| == t + 1
    ensures var (x, y) := kids[p]; 1 <= x < p && 1 <= y < p && x != y && parent[x] == p && parent[y] == p
    ensures forall i :: 1 <= i <= t && parent[i] == p ==> i == kids[p].0 || i == kids[p].1
    ensures parent[p] == -1 || parent[p] > p
  {
    assert JoinedFrom(parent, weight, p, kids[p].0, kids[p].1);
  }

  lemma CutNext(parent: seq<int>, weight: seq<int>, a: int, t: int, c: int)
    requires ParentsUp(parent, a, t) && t < |weight| && 1 <= c <= t && (parent[c] == -1 || parent[c] > c)
    ensures CutCost(parent, weight, a, t, c, c)
         == CutCost(parent, weight, a, t, c, c - 1) + PathCost(WeightOf(weight[c]), Depth(parent, a, t, c))
  {
    hide WeightOf, Depth;
  }

  lemma DepthNext(parent: seq<int>, a: int, t: int, k: int)
    requires ParentsUp(parent, a, t) && 1 <= k <= t && parent[k] != -1
    ensures 1 <= parent[k] <= t && Depth(parent, a, t, k) == 1 + Depth(parent, a, t, parent[k])
  {
  }

  lemma SpentNext(weight: seq<int>, a: nat, t: nat)
    requires a < t < |weight|
    ensures Spent(weight, a, t) == Spent(weight, a, t - 1) + WeightOf(weight[t])
  {
  }

  lemma OneDeeper(v: int, w: int, n: nat)
    ensures PathCost(v, 1 + n) + PathCost(w, 1 + n) == PathCost(v + w, n) + (v + w)
  {
  }

  lemma {:induction false} TopCutCost(parent: seq<int>, weight: seq<int>, a: int, t: int, k: int)
    requires ParentsUp(parent, a, t) && t < |weight| && 0 <= k < t
    requires forall i :: 1 <= i < t ==> parent[i] != -1
    ensures CutCost(parent, weight, a, t, t, k) == 0
  {
    hide WeightOf;
    if k > 0 {
      TopCutCost(parent, weight, a, t, k - 1);
    }
  }

  lemma {:induction false} CostIsCut(parent: seq<int>, weight: seq<int>, a: int, t: int, k: int, ws: seq<int>, lens: seq<nat>)
    requires ParentsUp(parent, a, t) && t < |weight| && 0 <= k <= a && |lens| == |ws| == k
    requires forall i :: 0 <= i < k ==> lens[i] == Depth(parent, a, t, i + 1) && ws[i] == WeightOf(weight[i + 1])
    ensures TotalCost(ws, lens) == CutCost(parent, weight, a, t, a, k)
  {
    hide WeightOf, Depth;
    if k > 0 {
      CostIsCut(parent, weight, a, t, k - 1, ws[..k - 1], lens[..k - 1]);
    }
  }

  /** The depths of the leaves of the finished tree are optimal lengths for their weights. */
  lemma TreeIsOptimal(parent: seq<int>, weight: seq<int>, a: int, t: int, kids: seq<(int, int)>, ws: seq<int>, lens: seq<nat>)
    requires Forest(parent, weight, a, t, kids) && parent[t] == -1 && forall i :: 1 <= i < t ==> parent[i] != -1
    requires forall p :: a < p <= t ==> WeightOf(weight[p]) == WeightOf(weight[kids[p].0]) + WeightOf(weight[kids[p].1])
    requires forall k :: 1 <= k <= t ==> 0 <= weight[k]
    requires Thrifty(parent, weight, a, t, ws) && |ws| == |lens| == a && Kraft(lens) <= 1.0
    requires forall i :: 0 <= i < a ==> lens[i] == Depth(parent, a, t, i + 1) && ws[i] == WeightOf(weight[i + 1])
    ensures Optimal(ws, lens)
  {
    assert ParentsUp(parent, a, t) && forall i :: 0 <= i < t ==> 0 <= Weights(weight, t)[i];
    EveryCutCosts(parent, weight, a, t, kids, a);
    CostIsCut(parent, weight, a, t, a, ws, lens);
    hide Forest, WeightOf, Depth, Frugal, Kraft, CutCost, TotalCost;
    forall l: seq<nat> | |l| == |ws| && Kraft(l) <= 1.0
      ensures TotalCost(ws, lens) <= TotalCost(ws, l)
    {
      FrugalEnd(Roots(parent, t), Weights(weight, t), Spent(weight, a, t), ws, l);
    }
  }
}
