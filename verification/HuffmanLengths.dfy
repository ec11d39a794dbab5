// BZ2_hbMakeCodeLengths: length-limited code lengths by merging the two lightest nodes,
// halving all weights and starting over while some code is too long.
module HuffmanLengths {
  import opened Powers
  import opened Heap
  import opened HuffmanTree
  import opened HuffmanOptimal

  // Sum of the leaf weights.
  function LeafSum(w: seq<int>, m: nat): int
    requires m < |w|
  {
    if m == 0 then 0 else LeafSum(w, m - 1) + Wt(w[m])
  }

  // Clean leaves: positive weight, depth zero, small total.
  ghost predicate Leaves(alpha: int, w: seq<int>, total: int) {
    && 2 <= alpha < |w| && w[0] == 0
    && (forall x :: 1 <= x <= alpha ==> w[x] >= 256 && Dp(w[x]) == 0)
    && LeafSum(w, alpha) == total < 0x80_0000
  }

  // The forest between two merges.
  ghost predicate Merging(alpha: int, w: seq<int>, par: seq<int>, h: seq<int>, c1: seq<int>, c2: seq<int>,
                          n: int, nHeap: int, S: set<int>, floor: int, total: int) {
    && 2 <= alpha && Shape(alpha, par, c1, c2, n) && Growth(alpha, w, par, n, floor, total)
    && Ordered(w, h, nHeap) && Listed(h, nHeap, S) && h[0] == 0 && w[0] == 0
    && (forall x :: x in S <==> 1 <= x <= n && par[x] == -1)
    && n + nHeap == 2 * alpha && 1 <= nHeap && n in S
  }

  lemma {:induction false} LeafSumIsRootSum(w: seq<int>, par: seq<int>, m: nat)
    requires m < |w| && m < |par| && forall x :: 1 <= x <= m ==> par[x] == -1
    ensures RootSum(w, par, m) == LeafSum(w, m)
  {
    if m > 0 {
      LeafSumIsRootSum(w, par, m - 1);
    }
  }

  lemma LeavesGrow(alpha: int, w: seq<int>, par: seq<int>, total: int)
    requires Leaves(alpha, w, total) && alpha < |par| && forall x :: 1 <= x <= alpha ==> par[x] == -1
    ensures Growth(alpha, w, par, alpha, 0, total)
  {
    LeafSumIsRootSum(w, par, alpha);
    forall x | 1 <= x <= alpha ensures Wt(w[x]) >= 1 && Heavy(w[x], 0) {
    }
  }

  lemma MergingStart(alpha: int, w: seq<int>, par: seq<int>, h: seq<int>, c1: seq<int>, c2: seq<int>, S: set<int>, total: int)
    requires Leaves(alpha, w, total) && alpha < |par| == |c1| == |c2| && forall x :: 1 <= x <= alpha ==> par[x] == -1
    requires Ordered(w, h, alpha) && Listed(h, alpha, S) && h[0] == 0
    requires forall x :: x in S <==> 1 <= x <= alpha
    ensures Merging(alpha, w, par, h, c1, c2, alpha, alpha, S, 0, total)
  {
    LeavesGrow(alpha, w, par, total);
    ShapeStart(alpha, par, c1, c2);
    hide Growth, Shape, Ordered, Listed, Leaves;
  }

  // Facts a merge relies on.
  lemma MergingPair(alpha: int, w: seq<int>, par: seq<int>, h: seq<int>, c1: seq<int>, c2: seq<int>,
                    n: int, nHeap: int, S: set<int>, floor: int, total: int, n1: int, n2: int)
    requires Merging(alpha, w, par, h, c1, c2, n, nHeap, S, floor, total) && TwoLightest(w, S, n1, n2)
    ensures n1 != n2 && 1 <= n1 <= n < |w| && 1 <= n2 <= n < |par| && par[n1] == -1 && par[n2] == -1
    ensures 0 <= w[n1] && 0 <= w[n2] && 1 + Max(Dp(w[n1]), Dp(w[n2])) < 256
    ensures Wt(w[n1]) + Wt(w[n2]) <= total < 0x80_0000
  {
    MergeShallow(alpha, w, par, n, floor, total, n1, n2);
  }

  lemma MergingStep(alpha: int, w: seq<int>, par: seq<int>, h0: seq<int>, c1: seq<int>, c2: seq<int>,
                    n: int, nHeap: int, S: set<int>, floor: int, total: int, n1: int, n2: int, t: int, S2: set<int>,
                    w': seq<int>, par': seq<int>, h': seq<int>, c1': seq<int>, c2': seq<int>, nHeap': int, S': set<int>, floor': int)
    requires Merging(alpha, w, par, h0, c1, c2, n, nHeap, S, floor, total)
    requires TwoLightest(w, S, n1, n2) && t == n + 1 < |par| && t < |w|
    requires Joined(w, par, n1, n2, t, w', par')
    requires c1' == c1[t := n1] && c2' == c2[t := n2] && floor' == Wt(w[n2])
    requires nHeap' == nHeap - 1 && S2 == S - {n1} - {n2} && S' == S2 + {t}
    requires Ordered(w', h', nHeap') && Listed(h', nHeap', S') && h'[0] == 0
    ensures Merging(alpha, w', par', h', c1', c2', t, nHeap', S', floor', total)
  {
    assert S' != {} && t in S';
    assert nHeap' >= 1 by {
      assert InHeap(h', nHeap', t);
    }
    hide Ordered, Listed;
    GrowthMerge(alpha, w, par, n, floor, total, n1, n2, t, w', par', floor');
    ShapeMerge(alpha, par, c1, c2, n, n1, n2, t, par');
    hide Growth, Shape;
  }

  // When one root is left, the forest is a tree.
  lemma MergingDone(alpha: int, w: seq<int>, par: seq<int>, h: seq<int>, c1: seq<int>, c2: seq<int>,
                    n: int, nHeap: int, S: set<int>, floor: int, total: int)
    requires Merging(alpha, w, par, h, c1, c2, n, nHeap, S, floor, total) && nHeap == 1
    ensures Tree(alpha, par, c1, c2, n) && Growth(alpha, w, par, n, floor, total) && n == 2 * alpha - 1
  {
    assert 1 <= n;
    OnlyNode(h, nHeap, S, n);
    assert forall x :: 1 <= x < n ==> x !in S;
  }

  lemma OnlyNode(h: seq<int>, k: int, S: set<int>, n: int)
    requires Listed(h, k, S) && k == 1 && n in S
    ensures forall x :: x in S ==> x == n
  {
    forall x | x in S ensures x == h[1] {
      assert InHeap(h, k, x);
    }
    assert n == h[1];
  }

  // Building one tree over the leaf weights.
  method BuildTree(heap: array<int>, weight: array<int>, parent: array<int>, alphaSize: int, ghost total: int)
    returns (nNodes: int, ghost c1: seq<int>, ghost c2: seq<int>, ghost floor: int)
    requires heap != weight && heap != parent && weight != parent
    requires heap.Length == 260 && weight.Length == 516 && parent.Length == 516 && alphaSize <= 258
    requires Leaves(alphaSize, weight[..], total)
    modifies heap, weight, parent
    ensures Tree(alphaSize, parent[..], c1, c2, nNodes) && Growth(alphaSize, weight[..], parent[..], nNodes, floor, total)
    ensures Minimal(alphaSize, Weights(weight[..]), parent[..], c1, c2, nNodes)
    ensures nNodes == 2 * alphaSize - 1 && parent[0] == -2
    ensures SamePrefix(old(weight[..]), weight[..], alphaSize)
  {
    ghost var S, w0 := {}, weight[..];
    var nHeap;
    nHeap, S := FillHeap(heap, weight, parent, alphaSize, total);
    c1, c2, floor := seq(516, i => 0), seq(516, i => 0), 0;
    nNodes := alphaSize;
    MergingStart(alphaSize, weight[..], parent[..], heap[..], c1, c2, S, total);
    LeavesMinimal(alphaSize, weight[..], parent[..], c1, c2, total);
    hide Merging, Ordered, Listed, Leaves, Growth, Tree, Shape, Minimal, Weights;
    while nHeap > 1
      invariant 1 <= nHeap <= alphaSize && nNodes + nHeap == 2 * alphaSize && parent[0] == -2
      invariant Merging(alphaSize, weight[..], parent[..], heap[..], c1, c2, nNodes, nHeap, S, floor, total)
      invariant |c1| == 516 && |c2| == 516 && Minimal(alphaSize, Weights(weight[..]), parent[..], c1, c2, nNodes)
      invariant SamePrefix(w0, weight[..], alphaSize)
    {
      ghost var w := weight[..];
      var t, m := nNodes + 1, nHeap - 1;
      c1, c2, S, floor := MergeTwo(heap, weight, parent, alphaSize, nNodes, nHeap, t, m, c1, c2, S, floor, total);
      nNodes := t;
      nHeap := m;
    }
    MergingDone(alphaSize, weight[..], parent[..], heap[..], c1, c2, nNodes, nHeap, S, floor, total);
  }

  // The weights of all nodes, without their depths.
  function Weights(w: seq<int>): (ws: seq<int>)
    ensures |ws| == |w|
  {
    seq(|w|, x requires 0 <= x < |w| => Wt(w[x]))
  }

  lemma LeavesMinimal(alpha: int, w: seq<int>, par: seq<int>, c1: seq<int>, c2: seq<int>, total: int)
    requires Leaves(alpha, w, total) && alpha < |par| == |c1| == |c2| && forall x :: 1 <= x <= alpha ==> par[x] == -1
    ensures Minimal(alpha, Weights(w), par, c1, c2, alpha)
  {
    MinimalStart(alpha, Weights(w), par, c1, c2);
  }

  lemma MinimalStep(alpha: int, w: seq<int>, par: seq<int>, h: seq<int>, c1: seq<int>, c2: seq<int>, n: int, nHeap: int, S: set<int>, floor: int, total: int,
                    n1: int, n2: int, t: int, w': seq<int>, par': seq<int>)
    requires Merging(alpha, w, par, h, c1, c2, n, nHeap, S, floor, total) && Minimal(alpha, Weights(w), par, c1, c2, n)
    requires TwoLightest(w, S, n1, n2) && t == n + 1 < |par| && t < |w| && Joined(w, par, n1, n2, t, w', par')
    ensures Minimal(alpha, Weights(w'), par', c1[t := n1], c2[t := n2], t)
  {
    hide Growth, Shape, Ordered, Listed, Minimal, AddWeights, Max, Dp;
    AddFields(w[n1], w[n2]);
    forall x | 1 <= x <= n && par[x] == -1 && x != n1 && x != n2 ensures Wt(w[n1]) <= Wt(w[x]) && Wt(w[n2]) <= Wt(w[x]) {
      assert x in S;
    }
    MinimalMerge(alpha, Weights(w), par, c1, c2, n, n1, n2, t, Weights(w'), par');
  }

  ghost predicate SamePrefix(w: seq<int>, w': seq<int>, alpha: int) {
    |w| == |w'| && alpha < |w| && forall x :: 0 <= x <= alpha ==> w'[x] == w[x]
  }

  // Every leaf enters the heap as a root.
  method FillHeap(heap: array<int>, weight: array<int>, parent: array<int>, alphaSize: int, ghost total: int)
    returns (nHeap: int, ghost S: set<int>)
    requires heap != weight && heap != parent && weight != parent
    requires heap.Length == 260 && weight.Length == 516 && parent.Length == 516 && alphaSize <= 258
    requires Leaves(alphaSize, weight[..], total)
    modifies heap, parent, weight
    ensures nHeap == alphaSize && heap[0] == 0 && parent[0] == -2
    ensures forall x :: 1 <= x <= alphaSize ==> parent[x] == -1
    ensures Ordered(weight[..], heap[..], alphaSize) && Listed(heap[..], alphaSize, S)
    ensures forall x :: x in S <==> 1 <= x <= alphaSize
    ensures weight[..] == old(weight[..])
  {
    ghost var w := weight[..];
    nHeap := 0;
    S := {};
    heap[0] := 0;
    weight[0] := 0;
    parent[0] := -2;
    assert weight[..] == w;
    assert Listed(heap[..], 0, S) && Ordered(w, heap[..], 0);
    assert forall x :: 1 <= x <= alphaSize ==> w[x] >= 0;
    hide Listed, Ordered, Leaves;
    while nHeap < alphaSize
      invariant 0 <= nHeap <= alphaSize && heap[0] == 0 && parent[0] == -2 && weight[..] == w
      invariant forall x :: 1 <= x <= nHeap ==> parent[x] == -1
      invariant Ordered(w, heap[..], nHeap) && Listed(heap[..], nHeap, S)
      invariant forall x :: x in S <==> 1 <= x <= nHeap
    {
      var i := nHeap + 1;
      parent[i] := -1;
      Insert(heap, weight, nHeap, i, i, S);
      nHeap := i;
      S := S + {i};
    }
  }

  ghost predicate TwoLightest(w: seq<int>, S: set<int>, n1: int, n2: int) {
    && n1 in S && n2 in S && n1 != n2 && 1 <= n1 < |w| && 1 <= n2 < |w|
    && (forall x :: x in S ==> 1 <= x < |w| && w[n1] <= w[x])
    && (forall x :: x in S && x != n1 ==> w[n2] <= w[x])
  }

  // The two lightest roots leave the heap.
  method TakeTwo(heap: array<int>, weight: array<int>, nHeap: int, m: int, k: int, ghost S: set<int>)
    returns (n1: int, n2: int, ghost S2: set<int>)
    requires heap != weight && 2 <= nHeap < heap.Length && m == nHeap - 1 && k == m - 1
    requires Ordered(weight[..], heap[..], nHeap) && Listed(heap[..], nHeap, S)
    modifies heap
    ensures TwoLightest(weight[..], S, n1, n2) && S2 == S - {n1} - {n2} && heap[0] == old(heap[0])
    ensures Ordered(weight[..], heap[..], k) && Listed(heap[..], k, S2)
  {
    hide Ordered, Listed;
    n1 := ExtractMin(heap, weight, nHeap, m, S);
    S2 := S - {n1};
    n2 := ExtractMin(heap, weight, m, k, S2);
    S2 := S2 - {n2};
  }

  // Node t becomes the parent of n1 and n2.
  method Join(weight: array<int>, parent: array<int>, n1: int, n2: int, t: int)
    requires weight != parent && n1 != n2 && 1 <= n1 < t && 1 <= n2 < t && t < parent.Length == weight.Length
    requires 0 <= weight[n1] && 0 <= weight[n2] && 1 + Max(Dp(weight[n1]), Dp(weight[n2])) < 256
    modifies weight, parent
    ensures Joined(old(weight[..]), old(parent[..]), n1, n2, t, weight[..], parent[..]) && parent[0] == old(parent[0])
    ensures weight[..] == old(weight[..])[t := weight[t]] && weight[t] >= 0
  {
    parent[n2] := t;
    parent[n1] := t;
    weight[t] := AddWeights(weight[n1], weight[n2]);
    parent[t] := -1;
  }

  ghost predicate Joined(w: seq<int>, par: seq<int>, n1: int, n2: int, t: int, w': seq<int>, par': seq<int>) {
    && 0 <= n1 < |w| && 0 <= n2 < |w| && 0 <= t < |w| && |w| == |par| && 0 <= w[n1] && 0 <= w[n2]
    && 1 + Max(Dp(w[n1]), Dp(w[n2])) < 256
    && par' == par[n1 := t][n2 := t][t := -1] && w' == w[t := AddWeights(w[n1], w[n2])]
  }

  // One merge of the two lightest roots into node t, leaving m heap entries.
  method MergeTwo(heap: array<int>, weight: array<int>, parent: array<int>, alphaSize: int, nNodes: int, nHeap: int, t: int, m: int,
                  ghost c1: seq<int>, ghost c2: seq<int>, ghost S: set<int>, ghost floor: int, ghost total: int)
    returns (ghost c1': seq<int>, ghost c2': seq<int>, ghost S': set<int>, ghost floor': int)
    requires heap != weight && heap != parent && weight != parent
    requires heap.Length == 260 && weight.Length == 516 && parent.Length == 516 && alphaSize <= 258 && |c1| == |c2| == 516
    requires 1 < nHeap <= alphaSize <= nNodes && nNodes + nHeap == 2 * alphaSize && t == nNodes + 1 && m == nHeap - 1
    requires Merging(alphaSize, weight[..], parent[..], heap[..], c1, c2, nNodes, nHeap, S, floor, total)
    requires Minimal(alphaSize, Weights(weight[..]), parent[..], c1, c2, nNodes)
    modifies heap, weight, parent
    ensures |c1'| == |c2'| == 516 && parent[0] == old(parent[0])
    ensures Minimal(alphaSize, Weights(weight[..]), parent[..], c1', c2', t)
    ensures Merging(alphaSize, weight[..], parent[..], heap[..], c1', c2', t, m, S', floor', total)
    ensures weight[..] == old(weight[..])[t := weight[t]]
  {
    ghost var w, par, h := weight[..], parent[..], heap[..];
    MergingHeap(alphaSize, w, par, h, c1, c2, nNodes, nHeap, S, floor, total);
    hide Merging, Ordered, Listed, TwoLightest, Joined, AddWeights, Max, Dp, Minimal, Weights;
    var k := m - 1;
    var n1, n2, S2 := TakeTwo(heap, weight, nHeap, m, k, S);
    MergingPair(alphaSize, w, par, h, c1, c2, nNodes, nHeap, S, floor, total, n1, n2);
    Join(weight, parent, n1, n2, t);
    ghost var w', par' := weight[..], parent[..];
    OrderedElsewhere(w, heap[..], k, S2, t, weight[t]);
    Insert(heap, weight, k, m, t, S2);
    c1', c2', S', floor' := c1[t := n1], c2[t := n2], S2 + {t}, Wt(w[n2]);
    ghost var h' := heap[..];
    MinimalStep(alphaSize, w, par, h, c1, c2, nNodes, nHeap, S, floor, total, n1, n2, t, w', par');
    MergingStep(alphaSize, w, par, h, c1, c2, nNodes, nHeap, S, floor, total, n1, n2, t, S2, w', par', h', c1', c2', m, S', floor');
  }

  lemma MergingHeap(alpha: int, w: seq<int>, par: seq<int>, h: seq<int>, c1: seq<int>, c2: seq<int>,
                    n: int, nHeap: int, S: set<int>, floor: int, total: int)
    requires Merging(alpha, w, par, h, c1, c2, n, nHeap, S, floor, total)
    ensures Ordered(w, h, nHeap) && Listed(h, nHeap, S) && h[0] == 0 && w[0] == 0
    ensures forall x :: x in S ==> 1 <= x <= n
  {
  }

  lemma {:induction false} LeafSumAgrees(w: seq<int>, w': seq<int>, m: nat)
    requires m < |w| && m < |w'| && forall x :: 1 <= x <= m ==> w'[x] == w[x]
    ensures LeafSum(w', m) == LeafSum(w, m)
  {
    if m > 0 {
      LeafSumAgrees(w, w', m - 1);
    }
  }

  // ---- reading the lengths ----

  // The number of parent links from a leaf up to the root.
  method Climb(parent: array<int>, i: int, ghost n: int) returns (j: int)
    requires 1 <= i <= n < parent.Length && Upward(parent[..], n)
    ensures j == Depth(parent[..], n, i)
  {
    ghost var par := parent[..];
    var k := i;
    j := 0;
    while parent[k] >= 0
      invariant 1 <= k <= n && j + Depth(par, n, k) == Depth(par, n, i)
      decreases n - k
    {
      assert par[k] == parent[k];
      k := parent[k];
      j := j + 1;
    }
  }

  // A length occupies one byte.
  method StoreLength(len: array<int>, m: int, j: int)
    requires 0 <= m < len.Length && 0 <= j < 256
    modifies len
    ensures len[..] == old(len[..])[m := j]
  {
    len[m] := j % 256;
  }

  // Every leaf's length.
  method ReadLengths(len: array<int>, parent: array<int>, alphaSize: int, maxLen: int,
                     ghost w: seq<int>, ghost c1: seq<int>, ghost c2: seq<int>, ghost n: int, ghost floor: int, ghost total: int)
    returns (tooLong: bool)
    requires len != parent && 2 <= alphaSize <= len.Length && alphaSize < n
    requires Tree(alphaSize, parent[..], c1, c2, n) && Growth(alphaSize, w, parent[..], n, floor, total)
    modifies len
    ensures Climbed(parent[..], n, len[..], alphaSize, total)
    ensures tooLong <==> SomeAbove(len[..], alphaSize, maxLen)
  {
    ghost var par := parent[..];
    tooLong := false;
    TreeClimbs(alphaSize, par, c1, c2, n);
    assert Climbed(par, n, len[..], 0, total) && !SomeAbove(len[..], 0, maxLen);
    hide Tree, Growth, Climbed, SomeAbove, Fits, Fib, Depth, Upward;
    for m := 0 to alphaSize
      invariant parent[..] == par && Climbed(par, n, len[..], m, total)
      invariant tooLong <==> SomeAbove(len[..], m, maxLen)
    {
      var i := m + 1;
      var j := Climb(parent, i, n);
      LeafFits(alphaSize, w, par, c1, c2, n, floor, total, i, j);
      ghost var l := len[..];
      StoreLength(len, m, j);
      ClimbedMore(par, n, l, m, i, total, j);
      SomeAboveMore(l, m, i, maxLen, j);
      if j > maxLen {
        tooLong := true;
      }
    }
  }

  ghost predicate SomeAbove(len: seq<int>, m: int, maxLen: int) {
    exists i :: 0 <= i < m && i < |len| && len[i] > maxLen
  }

  lemma SomeAboveMore(l: seq<int>, m: int, i: int, maxLen: int, j: int)
    requires 0 <= m < |l| && i == m + 1
    ensures SomeAbove(l[m := j], i, maxLen) <==> SomeAbove(l, m, maxLen) || j > maxLen
  {
    var l' := l[m := j];
    if SomeAbove(l, m, maxLen) {
      var x :| 0 <= x < m && x < |l| && l[x] > maxLen;
      assert l'[x] > maxLen;
    }
    if j > maxLen {
      assert l'[m] > maxLen;
    }
  }

  lemma ClimbedMore(par: seq<int>, n: int, l: seq<int>, m: int, i: int, total: int, j: int)
    requires Climbed(par, n, l, m, total) && m < |l| && i == m + 1 <= n
    requires Fits(par, n, i, j, total)
    ensures Climbed(par, n, l[m := j], i, total)
  {
  }

  // j is the depth of node i, and small.
  ghost predicate Fits(par: seq<int>, n: int, i: int, j: int, total: int) {
    1 <= i <= n < |par| && Upward(par, n) && j == Depth(par, n, i) && 1 <= j <= 32 && Fib(j + 2) <= total
  }

  lemma LeafFits(alpha: int, w: seq<int>, par: seq<int>, c1: seq<int>, c2: seq<int>, n: int, floor: int, total: int, x: int, j: int)
    requires Tree(alpha, par, c1, c2, n) && Growth(alpha, w, par, n, floor, total) && 2 <= alpha < n && 1 <= x <= alpha
    requires j == Depth(par, n, x)
    ensures Fits(par, n, x, j, total) && 1 <= j <= 32
  {
    LeafDepth(alpha, w, par, c1, c2, n, floor, total, x);
  }

  ghost predicate Climbed(par: seq<int>, n: int, len: seq<int>, m: int, total: int) {
    && 0 <= m <= n < |par| && m <= |len| && Upward(par, n)
    && (forall i :: 0 <= i < m ==> 1 <= len[i] == Depth(par, n, i + 1) && Fib(len[i] + 2) <= total)
  }

  lemma TreeClimbs(alpha: int, par: seq<int>, c1: seq<int>, c2: seq<int>, n: int)
    requires Tree(alpha, par, c1, c2, n)
    ensures n < |par| && Upward(par, n)
  {
  }

  // ---- halving the weights ----

  // Leaf weights 1..m have been replaced by one plus half their value.
  ghost predicate Halved(w: seq<int>, w': seq<int>, m: int, alpha: int) {
    && 0 <= m <= alpha < |w| == |w'| && w'[0] == w[0]
    && (forall x :: 1 <= x <= m ==> w'[x] == 256 * (1 + Wt(w[x]) / 2))
    && (forall x :: m < x <= alpha ==> w'[x] == w[x])
  }

  method Rescale(weight: array<int>, alphaSize: int, ghost total: int)
    requires Leaves(alphaSize, weight[..], total)
    modifies weight
    ensures Halved(old(weight[..]), weight[..], alphaSize, alphaSize)
  {
    for i := 1 to alphaSize + 1
      invariant Halved(old(weight[..]), weight[..], i - 1, alphaSize)
    {
      var j := weight[i] / 256;
      j := 1 + j / 2;
      weight[i] := j * 256;
    }
  }

  lemma {:induction false} HalvedSum(w: seq<int>, w': seq<int>, alpha: int, m: nat)
    requires Halved(w, w', alpha, alpha) && m <= alpha && forall x :: 1 <= x <= m ==> w[x] >= 256
    ensures LeafSum(w', m) <= LeafSum(w, m) && LeafSum(w', m) >= m
    ensures LeafSum(w', m) < LeafSum(w, m) || LeafSum(w, m) <= 2 * m
  {
    if m > 0 {
      HalvedSum(w, w', alpha, m - 1);
      assert Wt(w'[m]) == 1 + Wt(w[m]) / 2;
    }
  }

  // A code too long for maxLen costs a total weight that weights of at most two cannot
  // reach, so halving strictly lowers the total.
  lemma HalvedLeaves(alpha: int, w: seq<int>, w': seq<int>, total: int, maxLen: nat, d: nat) returns (total': int)
    requires Leaves(alpha, w, total) && Halved(w, w', alpha, alpha)
    requires d > maxLen && Fib(d + 2) <= total && 2 * alpha < Fib(maxLen + 3)
    ensures Leaves(alpha, w', total') && 0 <= total' < total
  {
    HalvedSum(w, w', alpha, alpha);
    FibMonotone(maxLen + 3, d + 2);
    hide Fib;
    total' := LeafSum(w', alpha);
    forall x | 1 <= x <= alpha ensures w'[x] >= 256 && Dp(w'[x]) == 0 {
    }
  }

  lemma LeavesKept(alpha: int, w: seq<int>, w': seq<int>, total: int)
    requires Leaves(alpha, w, total) && SamePrefix(w, w', alpha)
    ensures Leaves(alpha, w', total)
  {
    LeafSumAgrees(w, w', alpha);
  }

  // ---- the whole construction ----

  // The weight a symbol of frequency f starts with.
  function Weight(f: int): int {
    if f == 0 then 1 else f
  }

  function FreqSum(freq: seq<int>): int {
    if freq == [] then 0 else FreqSum(freq[..|freq| - 1]) + Weight(freq[|freq| - 1])
  }

  lemma {:induction false} StartSum(freq: seq<int>, w: seq<int>, m: nat)
    requires m <= |freq| && m < |w| && forall x :: 1 <= x <= m ==> w[x] == 256 * Weight(freq[x - 1])
    ensures LeafSum(w, m) == FreqSum(freq[..m])
  {
    if m > 0 {
      StartSum(freq, w, m - 1);
      assert freq[..m][..m - 1] == freq[..m - 1];
    }
  }

  // Every length lies in 1..maxLen and the lengths use up the code space exactly.
  ghost predicate FullCode(len: seq<int>, maxLen: nat) {
    (forall i :: 0 <= i < |len| ==> 1 <= len[i] <= maxLen) && Kraft(len, maxLen) == Pow2(maxLen)
  }

  // The weights of a first try, and of the try after one halving.
  function FirstWeights(freq: seq<int>): (ws: seq<int>)
    ensures |ws| == |freq|
  {
    seq(|freq|, i requires 0 <= i < |freq| => if freq[i] == 0 then 1 else freq[i])
  }

  function Halve(ws: seq<int>): (vs: seq<int>)
    ensures |vs| == |ws|
  {
    seq(|ws|, i requires 0 <= i < |ws| => 1 + ws[i] / 2)
  }

  // The weights after k halvings.
  function Tried(freq: seq<int>, k: nat): (ws: seq<int>)
    ensures |ws| == |freq|
  {
    if k == 0 then FirstWeights(freq) else Halve(Tried(freq, k - 1))
  }

  // An optimal code for these weights has been found with a length above maxLen.
  ghost predicate Outgrown(ws: seq<int>, maxLen: nat) {
    exists l: seq<int> :: Optimal(ws, l) && Exceeds(l, maxLen)
  }

  ghost predicate Exceeds(l: seq<int>, maxLen: nat) {
    exists i :: 0 <= i < |l| && l[i] > maxLen
  }

  // An optimal code for the frequencies, with 1 for a frequency of 0; or, when that came out
  // too long, for the weights after as many halvings as it took.
  ghost predicate BestCode(freq: seq<int>, len: seq<int>, maxLen: nat) {
    exists k: nat :: Optimal(Tried(freq, k), len) && forall j :: 0 <= j < k ==> Outgrown(Tried(freq, j), maxLen)
  }

  // The leaves weigh ws.
  ghost predicate Weighing(w: seq<int>, alpha: int, ws: seq<int>) {
    |ws| == alpha < |w| && forall x :: 1 <= x <= alpha ==> Wt(w[x]) == ws[x - 1]
  }

  lemma WeighingHalved(w: seq<int>, w': seq<int>, alpha: int, freq: seq<int>, k: nat)
    requires Halved(w, w', alpha, alpha) && Weighing(w, alpha, Tried(freq, k))
    ensures Weighing(w', alpha, Tried(freq, k + 1))
  {
  }

  // The lengths climbed are an optimal code.
  lemma ClimbedOptimal(alpha: int, w: seq<int>, par: seq<int>, c1: seq<int>, c2: seq<int>, n: int, len: seq<int>, total: int, ws: seq<int>)
    requires Minimal(alpha, Weights(w), par, c1, c2, n) && Tree(alpha, par, c1, c2, n) && Climbed(par, n, len, alpha, total)
    requires |w| == |par| && Weighing(w, alpha, ws)
    ensures Optimal(ws, len[..alpha])
  {
    hide Minimal, Tree, Optimal, Depth, Upward, Fib;
    assert Weights(w)[1..alpha + 1] == ws;
    LeavesOptimal(alpha, Weights(w), par, c1, c2, n, len[..alpha]);
  }

  lemma OutgrownNow(ws: seq<int>, l: seq<int>, alpha: int, maxLen: nat)
    requires 0 <= alpha <= |l| && Optimal(ws, l[..alpha]) && SomeAbove(l, alpha, maxLen)
    ensures Outgrown(ws, maxLen)
  {
    hide Optimal;
    var i :| 0 <= i < alpha && i < |l| && l[i] > maxLen;
    assert l[..alpha][i] > maxLen;
  }

  lemma ClimbedFull(alpha: int, par: seq<int>, c1: seq<int>, c2: seq<int>, n: int, len: seq<int>, total: int, maxLen: nat)
    requires Tree(alpha, par, c1, c2, n) && 2 <= alpha < n && Climbed(par, n, len, alpha, total)
    requires !SomeAbove(len, alpha, maxLen)
    ensures FullCode(len[..alpha], maxLen)
  {
    assert forall i :: 0 <= i < alpha ==> len[i] <= maxLen;
    TreeKraft(alpha, par, c1, c2, n, len[..alpha], maxLen);
  }

  // One tree and its depths.  A code that came out too long shows a depth that its total weight
  // has to pay for.
  method OneTry(len: array<int>, heap: array<int>, weight: array<int>, parent: array<int>, alphaSize: int, maxLen: nat, ghost total: int, ghost ws: seq<int>)
    returns (tooLong: bool, ghost d: nat)
    requires heap != weight && heap != parent && weight != parent && len != heap && len != weight && len != parent
    requires heap.Length == 260 && weight.Length == 516 && parent.Length == 516 && 2 <= alphaSize <= 258 && alphaSize <= len.Length
    requires Leaves(alphaSize, weight[..], total) && Weighing(weight[..], alphaSize, ws)
    modifies len, heap, weight, parent
    ensures Leaves(alphaSize, weight[..], total) && Weighing(weight[..], alphaSize, ws) && Optimal(ws, len[..alphaSize])
    ensures !tooLong ==> FullCode(len[..alphaSize], maxLen)
    ensures tooLong ==> Outgrown(ws, maxLen) && d > maxLen && Fib(d + 2) <= total
  {
    hide Leaves, Tree, Growth, FullCode, Fib, Climbed, SomeAbove, SamePrefix, Minimal, Optimal, Weights, Outgrown, Weighing;
    ghost var w := weight[..];
    var nNodes;
    ghost var c1, c2, floor;
    nNodes, c1, c2, floor := BuildTree(heap, weight, parent, alphaSize, total);
    LeavesKept(alphaSize, w, weight[..], total);
    WeighingKept(w, weight[..], alphaSize, ws);
    ghost var par := parent[..];
    tooLong := ReadLengths(len, parent, alphaSize, maxLen, weight[..], c1, c2, nNodes, floor, total);
    ClimbedOptimal(alphaSize, weight[..], par, c1, c2, nNodes, len[..], total, ws);
    assert len[..][..alphaSize] == len[..alphaSize];
    d := 0;
    if tooLong {
      OutgrownNow(ws, len[..], alphaSize, maxLen);
      d := TooLongCost(par, nNodes, len[..], alphaSize, total, maxLen);
    } else {
      ClimbedFull(alphaSize, par, c1, c2, nNodes, len[..], total, maxLen);
    }
  }

  method MakeCodeLengths(len: array<int>, freq: seq<int>, alphaSize: int, maxLen: nat)
    requires 2 <= alphaSize <= 258 && alphaSize == |freq| <= len.Length
    requires (forall i :: 0 <= i < alphaSize ==> freq[i] >= 0) && FreqSum(freq) < 0x80_0000
    requires 2 * alphaSize < Fib(maxLen + 3)
    modifies len
    ensures FullCode(len[..alphaSize], maxLen) && BestCode(freq, len[..alphaSize], maxLen)
  {
    hide Leaves, FullCode, Fib, Halved, FreqSum, Optimal, Tried, Outgrown, Weighing;
    var heap, weight, parent := new int[260], new int[516], new int[516];
    ghost var total := FreqSum(freq);
    StartWeights(weight, freq, alphaSize);
    ghost var halvings: nat := 0;
    while true
      invariant Leaves(alphaSize, weight[..], total)
      invariant Weighing(weight[..], alphaSize, Tried(freq, halvings)) && forall k :: 0 <= k < halvings ==> Outgrown(Tried(freq, k), maxLen)
      decreases total
    {
      var tooLong;
      ghost var d;
      tooLong, d := OneTry(len, heap, weight, parent, alphaSize, maxLen, total, Tried(freq, halvings));
      if !tooLong {
        break;
      }
      ghost var w := weight[..];
      Rescale(weight, alphaSize, total);
      total := HalvedLeaves(alphaSize, w, weight[..], total, maxLen, d);
      WeighingHalved(w, weight[..], alphaSize, freq, halvings);
      halvings := halvings + 1;
    }
  }

  lemma WeighingKept(w: seq<int>, w': seq<int>, alpha: int, ws: seq<int>)
    requires Weighing(w, alpha, ws) && SamePrefix(w, w', alpha)
    ensures Weighing(w', alpha, ws)
  {
  }

  lemma TooLongCost(par: seq<int>, n: int, len: seq<int>, alpha: int, total: int, maxLen: nat) returns (d: nat)
    requires Climbed(par, n, len, alpha, total) && SomeAbove(len, alpha, maxLen)
    ensures d > maxLen && Fib(d + 2) <= total
  {
    var i :| 0 <= i < alpha && len[i] > maxLen;
    d := len[i];
  }

  method StartWeights(weight: array<int>, freq: seq<int>, alphaSize: int)
    requires 2 <= alphaSize < weight.Length && alphaSize == |freq|
    requires (forall i :: 0 <= i < alphaSize ==> freq[i] >= 0) && FreqSum(freq) < 0x80_0000
    modifies weight
    ensures Leaves(alphaSize, weight[..], FreqSum(freq)) && Weighing(weight[..], alphaSize, Tried(freq, 0))
  {
    weight[0] := 0;
    for i := 0 to alphaSize
      invariant weight[0] == 0 && forall x :: 1 <= x <= i ==> weight[x] == 256 * Weight(freq[x - 1])
    {
      weight[i + 1] := Weight(freq[i]) * 256;
    }
    StartSum(freq, weight[..], alphaSize);
    assert freq[..alphaSize] == freq;
  }

  // The compressor asks for at most 258 symbols and 17 bits, which always succeeds.
  lemma SeventeenBitsSuffice(alphaSize: int)
    requires alphaSize <= 258
    ensures 2 * alphaSize < Fib(17 + 3)
  {
    FibValues();
  }
}
