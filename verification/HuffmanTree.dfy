// The forest that repeated merging of the two lightest nodes builds: its shape, why its
// weights grow like Fibonacci numbers with depth, and why its leaf depths fill the code
// space exactly.
module HuffmanTree {
  import opened Powers

  // A node's weight word keeps the weight above and the depth below eight bits.
  function Wt(z: int): int {
    z / 256
  }

  function Dp(z: int): int {
    z % 256
  }

  // ---- shape ----

  // Leaves are 1..alpha, merged nodes alpha+1..n; roots have parent -1; c1 and c2 name the
  // two children of each merged node.
  ghost predicate Shape(alpha: int, par: seq<int>, c1: seq<int>, c2: seq<int>, n: int) {
    && 1 <= alpha <= n < |par| && |c1| == |c2| == |par|
    && (forall x :: 1 <= x <= n ==> par[x] == -1 || (alpha < par[x] <= n && x < par[x]))
    && (forall t :: alpha < t <= n ==> 1 <= c1[t] < t && 1 <= c2[t] < t && c1[t] != c2[t])
    && (forall t :: alpha < t <= n ==> par[c1[t]] == t && par[c2[t]] == t)
    && (forall x :: 1 <= x <= n && par[x] != -1 ==> x == c1[par[x]] || x == c2[par[x]])
  }

  lemma ShapeStart(alpha: int, par: seq<int>, c1: seq<int>, c2: seq<int>)
    requires 1 <= alpha < |par| && |c1| == |c2| == |par| && forall x :: 1 <= x <= alpha ==> par[x] == -1
    ensures Shape(alpha, par, c1, c2, alpha)
  {
  }

  lemma ShapeMerge(alpha: int, par: seq<int>, c1: seq<int>, c2: seq<int>, n: int, n1: int, n2: int, t: int, par': seq<int>)
    requires Shape(alpha, par, c1, c2, n) && t == n + 1 < |par|
    requires 1 <= n1 <= n && 1 <= n2 <= n && n1 != n2 && par[n1] == -1 && par[n2] == -1
    requires par' == par[n1 := t][n2 := t][t := -1]
    ensures Shape(alpha, par', c1[t := n1], c2[t := n2], t)
  {
  }

  // ---- depth below the root ----

  ghost predicate Upward(par: seq<int>, n: int) {
    n < |par| && forall y {:trigger par[y]} :: 1 <= y <= n ==> par[y] == -1 || y < par[y] <= n
  }

  ghost function Depth(par: seq<int>, n: int, x: int): nat
    requires 1 <= x <= n < |par| && Upward(par, n)
    decreases n - x
  {
    if par[x] == -1 then 0 else 1 + Depth(par, n, par[x])
  }

  // ---- weights ----

  // The weight of all roots among the first m nodes.
  function RootSum(w: seq<int>, par: seq<int>, m: nat): int
    requires m < |w| && m < |par|
  {
    if m == 0 then 0 else RootSum(w, par, m - 1) + if par[m] == -1 then Wt(w[m]) else 0
  }

  // Every root is at least as heavy as anything merged so far (floor), and a root of depth
  // d was built from nodes whose weights add up like Fibonacci numbers.
  ghost predicate Growth(alpha: int, w: seq<int>, par: seq<int>, n: int, floor: int, total: int) {
    && 1 <= alpha <= n < |par| && n < |w| && total < 0x80_0000
    && (forall x :: 1 <= x <= n ==> 256 <= w[x])
    && (forall x :: 1 <= x <= alpha ==> Dp(w[x]) == 0)
    && (forall x :: 1 <= x <= n && par[x] != -1 ==> 1 <= par[x] <= n && Dp(w[x]) < Dp(w[par[x]]))
    && (forall x :: 1 <= x <= n && par[x] == -1 ==> Wt(w[x]) >= floor && Heavy(w[x], floor))
    && RootSum(w, par, n) == total
  }

  ghost predicate Heavy(z: int, floor: int) {
    Wt(z) >= Fib(Dp(z) + 2) && (Dp(z) >= 1 ==> floor >= Fib(Dp(z) + 1))
  }

  lemma {:induction false} RootSumAgrees(w: seq<int>, w': seq<int>, par: seq<int>, par': seq<int>, m: nat)
    requires m < |w| && m < |w'| && m < |par| && m < |par'|
    requires forall x :: 1 <= x <= m ==> w'[x] == w[x] && (par'[x] == -1 <==> par[x] == -1)
    ensures RootSum(w', par', m) == RootSum(w, par, m)
  {
    if m > 0 {
      RootSumAgrees(w, w', par, par', m - 1);
    }
  }

  lemma {:induction false} RootSumDrop(w: seq<int>, par: seq<int>, m: nat, a: int, v: int)
    requires m < |w| && m < |par| && 1 <= a <= m && par[a] == -1 && v != -1
    ensures RootSum(w, par[a := v], m) == RootSum(w, par, m) - Wt(w[a])
  {
    if a == m {
      RootSumAgrees(w, w, par, par[a := v], m - 1);
    } else {
      RootSumDrop(w, par, m - 1, a, v);
    }
  }

  lemma {:induction false} RootSumBound(w: seq<int>, par: seq<int>, m: nat, a: int, b: int)
    requires m < |w| && m < |par| && 1 <= a <= m && 1 <= b <= m && a != b && par[a] == -1 && par[b] == -1
    requires forall x :: 1 <= x <= m ==> Wt(w[x]) >= 0
    ensures Wt(w[a]) + Wt(w[b]) <= RootSum(w, par, m)
  {
    RootSumDrop(w, par, m, a, 0);
    RootSumDrop(w, par[a := 0], m, b, 0);
    RootSumNonNegative(w, par[a := 0][b := 0], m);
  }

  lemma {:induction false} RootSumNonNegative(w: seq<int>, par: seq<int>, m: nat)
    requires m < |w| && m < |par| && forall x :: 1 <= x <= m ==> Wt(w[x]) >= 0
    ensures RootSum(w, par, m) >= 0
  {
    if m > 0 {
      RootSumNonNegative(w, par, m - 1);
    }
  }

  // A weight below 2^23 leaves room for at most 32 levels, so the depth byte never overflows.
  lemma ShallowBelow(z: int)
    requires 0 <= z && Wt(z) >= Fib(Dp(z) + 2) && Wt(z) < 0x80_0000
    ensures Dp(z) <= 32
  {
    if Dp(z) > 32 {
      FibMonotone(35, Dp(z) + 2);
      FibValues();
    }
  }

  function Max(a: int, b: int): int {
    if a > b then a else b
  }

  // ADDWEIGHTS: the two fields do not overlap while the new depth fits its byte.
  function AddWeights(z1: int, z2: int): int
    requires 0 <= z1 && 0 <= z2 && 1 + Max(Dp(z1), Dp(z2)) < 256
  {
    256 * (Wt(z1) + Wt(z2)) + (1 + Max(Dp(z1), Dp(z2)))
  }

  lemma AddFields(z1: int, z2: int)
    requires 0 <= z1 && 0 <= z2 && 1 + Max(Dp(z1), Dp(z2)) < 256
    ensures Wt(AddWeights(z1, z2)) == Wt(z1) + Wt(z2)
    ensures Dp(AddWeights(z1, z2)) == 1 + Max(Dp(z1), Dp(z2))
  {
  }

  lemma MergeShallow(alpha: int, w: seq<int>, par: seq<int>, n: int, floor: int, total: int, n1: int, n2: int)
    requires Growth(alpha, w, par, n, floor, total)
    requires 1 <= n1 <= n && 1 <= n2 <= n && n1 != n2 && par[n1] == -1 && par[n2] == -1
    ensures 0 <= w[n1] && 0 <= w[n2] && 1 + Max(Dp(w[n1]), Dp(w[n2])) <= 33
    ensures Wt(w[n1]) + Wt(w[n2]) <= total
  {
    RootSumBound(w, par, n, n1, n2);
    ShallowBelow(w[n1]);
    ShallowBelow(w[n2]);
  }

  // Two light nodes merged weigh at least the next Fibonacci number.
  lemma MergeHeavy(z1: int, z2: int, floor: int, floor': int, z: int)
    requires 256 <= z1 && z1 <= z2 && Wt(z1) >= floor && Wt(z2) >= floor
    requires Heavy(z1, floor) && Heavy(z2, floor) && floor' == Wt(z2)
    requires 1 + Max(Dp(z1), Dp(z2)) < 256 && z == AddWeights(z1, z2)
    ensures Heavy(z, floor') && Wt(z) >= floor' >= floor && z >= 256
  {
    AddFields(z1, z2);
    var d := Dp(z);
    assert Wt(z1) <= Wt(z2);
    if Dp(z1) >= Dp(z2) {
      assert d == Dp(z1) + 1;
      if Dp(z1) >= 1 {
        assert Wt(z2) >= floor >= Fib(d);
      }
      assert Fib(d + 2) == Fib(d + 1) + Fib(d);
    } else {
      assert d == Dp(z2) + 1;
      assert Wt(z1) >= floor >= Fib(d);
      assert Fib(d + 2) == Fib(d + 1) + Fib(d);
    }
  }

  lemma GrowthMerge(alpha: int, w: seq<int>, par: seq<int>, n: int, floor: int, total: int, n1: int, n2: int, t: int,
                    w': seq<int>, par': seq<int>, floor': int)
    requires Growth(alpha, w, par, n, floor, total) && t == n + 1 < |par| && t < |w|
    requires 1 <= n1 <= n && 1 <= n2 <= n && n1 != n2 && par[n1] == -1 && par[n2] == -1
    requires w[n1] <= w[n2] && forall x :: 1 <= x <= n && par[x] == -1 && x != n1 ==> w[n2] <= w[x]
    requires 0 <= w[n1] && 0 <= w[n2] && 1 + Max(Dp(w[n1]), Dp(w[n2])) < 256
    requires par' == par[n1 := t][n2 := t][t := -1] && w' == w[t := AddWeights(w[n1], w[n2])]
    requires floor' == Wt(w[n2])
    ensures Growth(alpha, w', par', t, floor', total)
  {
    MergeHeavy(w[n1], w[n2], floor, floor', w'[t]);
    GrowthSum(w, par, n, n1, n2, t, w', par');
    GrowthRoots(alpha, w, par, n, floor, total, n1, n2, t, w', par', floor');
    GrowthDepths(alpha, w, par, n, floor, total, n1, n2, t, w', par');
    hide RootSum, Heavy, Fib, Wt;
  }

  lemma GrowthSum(w: seq<int>, par: seq<int>, n: int, n1: int, n2: int, t: int, w': seq<int>, par': seq<int>)
    requires 1 <= n1 <= n && 1 <= n2 <= n && n1 != n2 && t == n + 1 < |par| && t < |w|
    requires par[n1] == -1 && par[n2] == -1
    requires 0 <= w[n1] && 0 <= w[n2] && 1 + Max(Dp(w[n1]), Dp(w[n2])) < 256
    requires par' == par[n1 := t][n2 := t][t := -1] && w' == w[t := AddWeights(w[n1], w[n2])]
    ensures RootSum(w', par', t) == RootSum(w, par, n)
  {
    AddFields(w[n1], w[n2]);
    RootSumDrop(w, par, n, n1, t);
    RootSumDrop(w, par[n1 := t], n, n2, t);
    RootSumAgrees(w, w', par[n1 := t][n2 := t], par', n);
  }

  lemma GrowthDepths(alpha: int, w: seq<int>, par: seq<int>, n: int, floor: int, total: int, n1: int, n2: int, t: int,
                     w': seq<int>, par': seq<int>)
    requires Growth(alpha, w, par, n, floor, total)
    requires 1 <= n1 <= n && 1 <= n2 <= n && n1 != n2 && t == n + 1 < |par| && t < |w|
    requires 0 <= w[n1] && 0 <= w[n2] && 1 + Max(Dp(w[n1]), Dp(w[n2])) < 256
    requires par' == par[n1 := t][n2 := t][t := -1] && w' == w[t := AddWeights(w[n1], w[n2])]
    ensures forall x :: 1 <= x <= t && par'[x] != -1 ==> 1 <= par'[x] <= t && Dp(w'[x]) < Dp(w'[par'[x]])
  {
    AddFields(w[n1], w[n2]);
    hide RootSum, Heavy, AddWeights, Dp;
  }

  lemma GrowthRoots(alpha: int, w: seq<int>, par: seq<int>, n: int, floor: int, total: int, n1: int, n2: int, t: int,
                    w': seq<int>, par': seq<int>, floor': int)
    requires Growth(alpha, w, par, n, floor, total) && t == n + 1 < |par| && t < |w|
    requires 1 <= n1 <= n && 1 <= n2 <= n && n1 != n2 && par[n1] == -1 && par[n2] == -1
    requires forall x :: 1 <= x <= n && par[x] == -1 && x != n1 ==> w[n2] <= w[x]
    requires |w'| == |w| && forall x :: 1 <= x <= n ==> w'[x] == w[x]
    requires par' == par[n1 := t][n2 := t][t := -1]
    requires floor' == Wt(w[n2]) && Wt(w'[t]) >= floor' && Heavy(w'[t], floor')
    ensures forall x :: 1 <= x <= t && par'[x] == -1 ==> Wt(w'[x]) >= floor' && Heavy(w'[x], floor')
  {
    forall x | 1 <= x <= t && par'[x] == -1 ensures Wt(w'[x]) >= floor' && Heavy(w'[x], floor') {
      if x != t {
        assert par[x] == -1 && x != n1;
        assert Wt(w[x]) >= floor' >= floor;
      }
    }
  }

  // ---- the finished tree ----

  ghost predicate Tree(alpha: int, par: seq<int>, c1: seq<int>, c2: seq<int>, n: int) {
    Shape(alpha, par, c1, c2, n) && par[n] == -1 && forall x :: 1 <= x < n ==> par[x] != -1
  }

  // Depth from the root and height of the subtree never exceed the height of the tree.
  lemma {:induction false} DepthBound(alpha: int, w: seq<int>, par: seq<int>, c1: seq<int>, c2: seq<int>, n: int, floor: int, total: int, x: int)
    requires Tree(alpha, par, c1, c2, n) && Growth(alpha, w, par, n, floor, total) && 1 <= x <= n
    ensures Dp(w[x]) + Depth(par, n, x) <= Dp(w[n])
    decreases n - x
  {
    if par[x] != -1 {
      DepthBound(alpha, w, par, c1, c2, n, floor, total, par[x]);
    }
  }

  // The last root carries the whole weight.
  lemma {:induction false} OneRoot(w: seq<int>, par: seq<int>, m: nat)
    requires m < |w| && m < |par| && forall x :: 1 <= x <= m ==> par[x] != -1
    ensures RootSum(w, par, m) == 0
  {
    if m > 0 {
      OneRoot(w, par, m - 1);
    }
  }

  lemma RootHeight(alpha: int, w: seq<int>, par: seq<int>, c1: seq<int>, c2: seq<int>, n: int, floor: int, total: int)
    requires Tree(alpha, par, c1, c2, n) && Growth(alpha, w, par, n, floor, total)
    ensures 0 <= Dp(w[n]) <= 32 && Fib(Dp(w[n]) + 2) <= total
  {
    OneRoot(w, par, n - 1);
    assert Wt(w[n]) == total;
    assert Heavy(w[n], floor);
    ShallowBelow(w[n]);
  }

  // A tree of small total weight is shallow.
  lemma LeafDepth(alpha: int, w: seq<int>, par: seq<int>, c1: seq<int>, c2: seq<int>, n: int, floor: int, total: int, x: int)
    requires Tree(alpha, par, c1, c2, n) && Growth(alpha, w, par, n, floor, total) && 2 <= alpha < n && 1 <= x <= alpha
    ensures 1 <= Depth(par, n, x) <= 32
    ensures Fib(Depth(par, n, x) + 2) <= total
  {
    RootHeight(alpha, w, par, c1, c2, n, floor, total);
    DepthBound(alpha, w, par, c1, c2, n, floor, total, x);
    assert Depth(par, n, x) == 1 + Depth(par, n, par[x]);
    assert Dp(w[x]) == 0;
    hide Growth, Tree, Dp, Depth, Fib;
    FibMonotone(Depth(par, n, x) + 2, Dp(w[n]) + 2);
  }

  // ---- Kraft's equality ----

  // Code space in units of 2^-k, used by the first m nodes whose parent lies beyond cut.
  ghost function Frontier(par: seq<int>, n: int, m: nat, cut: int, k: nat): nat
    requires m <= n < |par| && Upward(par, n)
    requires forall y :: 1 <= y <= n ==> Depth(par, n, y) <= k
  {
    if m == 0 then 0
    else Frontier(par, n, m - 1, cut, k) + if par[m] == -1 || par[m] > cut then Pow2(k - Depth(par, n, m)) else 0
  }

  // Lowering the cut past t adds the children of t.
  lemma {:induction false} FrontierCut(par: seq<int>, n: int, m: nat, t: int, k: nat, a: int, b: int)
    requires m <= n < |par| && Upward(par, n)
    requires forall y :: 1 <= y <= n ==> Depth(par, n, y) <= k
    requires 1 <= a < b <= n && par[a] == t && par[b] == t && t >= 1
    requires forall y :: 1 <= y <= n && par[y] == t ==> y == a || y == b
    ensures Frontier(par, n, m, t - 1, k) == Frontier(par, n, m, t, k)
              + (if a <= m then Pow2(k - Depth(par, n, a)) else 0) + (if b <= m then Pow2(k - Depth(par, n, b)) else 0)
  {
    if m > 0 {
      FrontierCut(par, n, m - 1, t, k, a, b);
    }
  }

  lemma {:induction false} FrontierAbove(par: seq<int>, n: int, m: nat, cut: int, k: nat)
    requires m <= n < |par| && Upward(par, n)
    requires forall y :: 1 <= y <= n ==> Depth(par, n, y) <= k
    requires forall y :: 1 <= y <= m ==> par[y] != -1 && par[y] <= cut
    ensures Frontier(par, n, m, cut, k) == 0
  {
    if m > 0 {
      FrontierAbove(par, n, m - 1, cut, k);
    }
  }

  // Replacing a node by its two children keeps the code space full.
  lemma {:induction false} FrontierFull(alpha: int, par: seq<int>, c1: seq<int>, c2: seq<int>, n: int, t: int, k: nat)
    requires Tree(alpha, par, c1, c2, n) && alpha <= t <= n
    requires forall y :: 1 <= y <= n ==> Depth(par, n, y) <= k
    ensures Frontier(par, n, t, t, k) == Pow2(k)
    decreases n - t
  {
    if t == n {
      FrontierAbove(par, n, n - 1, n, k);
    } else {
      var u := t + 1;
      FrontierFull(alpha, par, c1, c2, n, u, k);
      var a, b := if c1[u] < c2[u] then c1[u] else c2[u], if c1[u] < c2[u] then c2[u] else c1[u];
      FrontierCut(par, n, t, u, k, a, b);
      assert Depth(par, n, a) == 1 + Depth(par, n, u) && Depth(par, n, b) == 1 + Depth(par, n, u);
      assert Pow2(k - Depth(par, n, u)) == 2 * Pow2(k - Depth(par, n, u) - 1);
    }
  }

  // Sum of 2^(k - length) over a table of code lengths.
  function Kraft(len: seq<int>, k: nat): nat
    requires forall i :: 0 <= i < |len| ==> 0 <= len[i] <= k
  {
    if len == [] then 0 else Kraft(len[..|len| - 1], k) + Pow2(k - len[|len| - 1])
  }

  lemma {:induction false} FrontierIsKraft(alpha: int, par: seq<int>, c1: seq<int>, c2: seq<int>, n: int, len: seq<int>, k: nat)
    requires Tree(alpha, par, c1, c2, n) && |len| <= alpha
    requires forall y :: 1 <= y <= n ==> Depth(par, n, y) <= k
    requires forall i :: 0 <= i < |len| ==> len[i] == Depth(par, n, i + 1)
    requires alpha < n
    ensures Frontier(par, n, |len|, alpha, k) == Kraft(len, k)
  {
    if len != [] {
      FrontierIsKraft(alpha, par, c1, c2, n, len[..|len| - 1], k);
    }
  }

  // The leaf depths of a finished tree use up the code space exactly.
  lemma TreeKraft(alpha: int, par: seq<int>, c1: seq<int>, c2: seq<int>, n: int, len: seq<int>, k: nat)
    requires Tree(alpha, par, c1, c2, n) && 2 <= alpha < n
    requires |len| == alpha && forall i :: 0 <= i < alpha ==> 0 <= len[i] <= k && len[i] == Depth(par, n, i + 1)
    ensures Kraft(len, k) == Pow2(k)
  {
    AllWithin(alpha, par, c1, c2, n, len, k);
    FrontierFull(alpha, par, c1, c2, n, alpha, k);
    FrontierIsKraft(alpha, par, c1, c2, n, len, k);
  }

  lemma AllWithin(alpha: int, par: seq<int>, c1: seq<int>, c2: seq<int>, n: int, len: seq<int>, k: nat)
    requires Tree(alpha, par, c1, c2, n)
    requires |len| == alpha && forall i :: 0 <= i < alpha ==> 0 <= len[i] <= k && len[i] == Depth(par, n, i + 1)
    ensures forall y :: 1 <= y <= n ==> Depth(par, n, y) <= k
  {
    forall y | 1 <= y <= n ensures Depth(par, n, y) <= k {
      var x := LeafUnder(alpha, par, c1, c2, n, y);
      assert len[x - 1] == Depth(par, n, x);
    }
  }

  // Below every node there is a leaf at least as deep.
  lemma {:induction false} LeafUnder(alpha: int, par: seq<int>, c1: seq<int>, c2: seq<int>, n: int, y: int) returns (x: int)
    requires Tree(alpha, par, c1, c2, n) && 1 <= y <= n
    ensures 1 <= x <= alpha && Depth(par, n, y) <= Depth(par, n, x)
    decreases y
  {
    if y <= alpha {
      x := y;
    } else {
      x := LeafUnder(alpha, par, c1, c2, n, c1[y]);
      assert Depth(par, n, c1[y]) == 1 + Depth(par, n, y);
    }
  }
}
