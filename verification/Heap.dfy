// The hand-written binary heap of BZ2_hbMakeCodeLengths: entries run from 1, entry 0 is a
// sentinel node of weight 0 that stops the upward walk.
module Heap {
  import opened Perms

  ghost predicate Entries(w: seq<int>, h: seq<int>, n: int) {
    && 0 <= n < |h| && (forall j :: 1 <= j <= n ==> 1 <= h[j] < |w|)
  }

  // The parent of entry j.  The quantifiers below fire only where a parent is mentioned.
  function Up(j: int): int {
    j / 2
  }

  ghost predicate Ordered(w: seq<int>, h: seq<int>, n: int) {
    Entries(w, h, n) && forall j {:trigger Up(j)} :: 2 <= j <= n ==> w[h[Up(j)]] <= w[h[j]]
  }

  // Ordered except between z and its parent, which the entries below z still respect.
  ghost predicate OrderedButUp(w: seq<int>, h: seq<int>, n: int, z: int) {
    && Entries(w, h, n) && 1 <= z <= n
    && (forall j {:trigger Up(j)} :: 2 <= j <= n && j != z ==> w[h[Up(j)]] <= w[h[j]])
    && (forall j {:trigger Up(j)} :: 2 <= j <= n && Up(j) == z && 2 <= z ==> w[h[Up(z)]] <= w[h[j]])
  }

  // Ordered except between z and its children, which the parent of z still respects.
  ghost predicate OrderedButDown(w: seq<int>, h: seq<int>, n: int, z: int) {
    && Entries(w, h, n) && 1 <= z <= n
    && (forall j {:trigger Up(j)} :: 2 <= j <= n && Up(j) != z ==> w[h[Up(j)]] <= w[h[j]])
    && (forall j {:trigger Up(j)} :: 2 <= j <= n && Up(j) == z && 2 <= z ==> w[h[Up(z)]] <= w[h[j]])
  }

  function Exchange(h: seq<int>, i: int, j: int): seq<int>
    requires 0 <= i < |h| && 0 <= j < |h|
  {
    h[i := h[j]][j := h[i]]
  }

  lemma UpStep(w: seq<int>, h: seq<int>, n: int, z: int, up: int)
    requires OrderedButUp(w, h, n, z) && up == Up(z) && 2 <= z && w[h[z]] < w[h[up]]
    ensures OrderedButUp(w, Exchange(h, z, up), n, up)
  {
    var g := Exchange(h, z, up);
    assert Up(up) <= up;
    forall j {:trigger Up(j)} | 2 <= j <= n && Up(j) == up && 2 <= up ensures w[g[Up(up)]] <= w[g[j]] {
      assert w[h[Up(up)]] <= w[h[up]];
    }
  }

  lemma UpEnd(w: seq<int>, h: seq<int>, n: int, z: int)
    requires OrderedButUp(w, h, n, z) && (z >= 2 ==> w[h[Up(z)]] <= w[h[z]])
    ensures Ordered(w, h, n)
  {
  }

  lemma DownStep(w: seq<int>, h: seq<int>, n: int, z: int, yy: int)
    requires OrderedButDown(w, h, n, z) && Up(yy) == z && 2 <= yy <= n
    requires w[h[yy]] <= w[h[z]]
    requires forall j {:trigger Up(j)} :: 2 <= j <= n && Up(j) == z ==> w[h[yy]] <= w[h[j]]
    ensures OrderedButDown(w, Exchange(h, z, yy), n, yy)
  {
    var g := Exchange(h, z, yy);
    assert Up(z) <= z;
  }

  lemma DownEnd(w: seq<int>, h: seq<int>, n: int, z: int)
    requires OrderedButDown(w, h, n, z)
    requires forall j {:trigger Up(j)} :: 2 <= j <= n && Up(j) == z ==> w[h[z]] <= w[h[j]]
    ensures Ordered(w, h, n)
  {
  }

  // The root is a smallest entry.
  lemma {:induction false} RootSmallest(w: seq<int>, h: seq<int>, n: int, j: int)
    requires Ordered(w, h, n) && 1 <= j <= n
    ensures w[h[1]] <= w[h[j]]
    decreases j
  {
    if j > 1 {
      RootSmallest(w, h, n, Up(j));
    }
  }

  // What an array with a hole at zz will be once tmp is put back.
  ghost predicate Rising(w: seq<int>, start: seq<int>, a: seq<int>, n: int, zz: int, tmp: int) {
    && 1 <= zz <= n && Entries(w, a, n) && 1 <= tmp < |w|
    && OrderedButUp(w, a[zz := tmp], n, zz) && PermIn(start, a[zz := tmp], 1, n + 1)
  }

  ghost predicate Sinking(w: seq<int>, start: seq<int>, a: seq<int>, n: int, zz: int, tmp: int) {
    && 1 <= zz <= n && Entries(w, a, n) && 1 <= tmp < |w|
    && OrderedButDown(w, a[zz := tmp], n, zz) && PermIn(start, a[zz := tmp], 1, n + 1)
  }

  lemma HoleMoved(a: seq<int>, zz: int, to: int, tmp: int)
    requires 0 <= zz < |a| && 0 <= to < |a| && zz != to
    ensures a[zz := a[to]][to := tmp] == Exchange(a[zz := tmp], zz, to)
  {
  }

  lemma Moved(start: seq<int>, a: seq<int>, n: int, zz: int, to: int, tmp: int)
    requires 1 <= zz <= n < |a| && 1 <= to <= n && zz != to && PermIn(start, a[zz := tmp], 1, n + 1)
    ensures PermIn(start, a[zz := a[to]][to := tmp], 1, n + 1)
  {
    hide PermIn;
    HoleMoved(a, zz, to, tmp);
    var cur, m := a[zz := tmp], n + 1;
    PermInSwap(cur, zz, to, 1, m);
    PermInTrans(start, cur, Exchange(cur, zz, to), 1, m);
  }

  lemma RiseStart(w: seq<int>, a: seq<int>, n: int)
    requires OrderedButUp(w, a, n, n)
    ensures Rising(w, a, a, n, n, a[n])
  {
    assert a[n := a[n]] == a;
  }

  lemma RiseBounds(w: seq<int>, start: seq<int>, a: seq<int>, n: int, zz: int, up: int, tmp: int)
    requires Rising(w, start, a, n, zz, tmp) && up == Up(zz)
    ensures 1 <= zz <= n < |a| && 1 <= tmp < |w| && 0 <= up < zz && (1 <= up ==> 1 <= a[up] < |w|)
  {
  }

  lemma RiseStep(w: seq<int>, start: seq<int>, a: seq<int>, n: int, zz: int, up: int, tmp: int)
    requires Rising(w, start, a, n, zz, tmp) && up == Up(zz) && 1 <= up
    requires 1 <= tmp < |w| && 1 <= a[up] < |w| && w[tmp] < w[a[up]]
    ensures Rising(w, start, a[zz := a[up]], n, up, tmp)
  {
    Moved(start, a, n, zz, up, tmp);
    HoleMoved(a, zz, up, tmp);
    UpStep(w, a[zz := tmp], n, zz, up);
    hide PermIn, OrderedButUp;
  }

  lemma RiseEnd(w: seq<int>, start: seq<int>, a: seq<int>, n: int, zz: int, up: int, tmp: int)
    requires Rising(w, start, a, n, zz, tmp) && up == Up(zz)
    requires up == 0 || (1 <= a[up] < |w| && 1 <= tmp < |w| && w[a[up]] <= w[tmp])
    ensures Ordered(w, a[zz := tmp], n) && PermIn(start, a[zz := tmp], 1, n + 1)
  {
    UpEnd(w, a[zz := tmp], n, zz);
    hide PermIn, Ordered, OrderedButUp;
  }

  method UpHeap(heap: array<int>, weight: array<int>, nHeap: int)
    requires heap != weight && 1 <= nHeap < heap.Length && OrderedButUp(weight[..], heap[..], nHeap, nHeap)
    requires weight.Length > 0 && heap[0] == 0 && weight[0] == 0 && weight[heap[nHeap]] >= 0
    modifies heap
    ensures Ordered(weight[..], heap[..], nHeap) && PermIn(old(heap[..]), heap[..], 1, nHeap + 1)
    ensures heap[0] == 0
  {
    ghost var w, start := weight[..], heap[..];
    var zz := nHeap;
    var tmp := heap[zz];
    var up := Up(zz);
    RiseStart(w, heap[..], nHeap);
    hide Rising, PermIn, OrderedButUp, Ordered, Up;
    while true
      invariant heap[0] == 0 && up == Up(zz) && 1 <= zz <= nHeap
      invariant Rising(w, start, heap[..], nHeap, zz, tmp)
      decreases zz
    {
      RiseBounds(w, start, heap[..], nHeap, zz, up, tmp);
      if !(weight[tmp] < weight[heap[up]]) { break; }
      RiseStep(w, start, heap[..], nHeap, zz, up, tmp);
      heap[zz] := heap[up];
      zz := up;
      up := Up(zz);
    }
    RiseBounds(w, start, heap[..], nHeap, zz, up, tmp);
    RiseEnd(w, start, heap[..], nHeap, zz, up, tmp);
    heap[zz] := tmp;
  }

  // yy is the lighter child of zz.
  ghost predicate LighterChild(w: seq<int>, a: seq<int>, n: int, zz: int, yy: int) {
    && 1 <= zz && 2 * zz <= n && (yy == 2 * zz || yy == 2 * zz + 1) && yy <= n && Entries(w, a, n)
    && w[a[yy]] <= w[a[2 * zz]] && (2 * zz + 1 <= n ==> w[a[yy]] <= w[a[2 * zz + 1]])
  }

  lemma ChildrenOf(n: int, z: int)
    requires 1 <= z
    ensures forall j {:trigger Up(j)} :: 2 <= j && Up(j) == z ==> j == 2 * z || j == 2 * z + 1
    ensures Up(2 * z) == z && Up(2 * z + 1) == z
  {
  }

  lemma SinkStep(w: seq<int>, start: seq<int>, a: seq<int>, n: int, zz: int, yy: int, tmp: int)
    requires Sinking(w, start, a, n, zz, tmp) && LighterChild(w, a, n, zz, yy) && w[a[yy]] <= w[tmp]
    ensures Sinking(w, start, a[zz := a[yy]], n, yy, tmp)
  {
    ChildrenOf(n, zz);
    Moved(start, a, n, zz, yy, tmp);
    HoleMoved(a, zz, yy, tmp);
    DownHole(w, a, n, zz, yy, tmp);
    hide PermIn, OrderedButDown, Up;
  }

  lemma DownHole(w: seq<int>, a: seq<int>, n: int, zz: int, yy: int, tmp: int)
    requires 1 <= zz <= n && Entries(w, a, n) && 1 <= tmp < |w| && OrderedButDown(w, a[zz := tmp], n, zz)
    requires LighterChild(w, a, n, zz, yy) && w[a[yy]] <= w[tmp]
    ensures OrderedButDown(w, Exchange(a[zz := tmp], zz, yy), n, yy)
  {
    ChildrenOf(n, zz);
    var cur := a[zz := tmp];
    assert cur[yy] == a[yy] && cur[zz] == tmp;
    forall j {:trigger Up(j)} | 2 <= j <= n && Up(j) == zz ensures w[cur[yy]] <= w[cur[j]] {
      assert cur[j] == a[j];
    }
    DownStep(w, cur, n, zz, yy);
  }

  lemma SinkEnd(w: seq<int>, start: seq<int>, a: seq<int>, n: int, zz: int, yy: int, tmp: int)
    requires Sinking(w, start, a, n, zz, tmp)
    requires 2 * zz > n || (LighterChild(w, a, n, zz, yy) && w[tmp] <= w[a[yy]])
    ensures Ordered(w, a[zz := tmp], n) && PermIn(start, a[zz := tmp], 1, n + 1)
  {
    ChildrenOf(n, zz);
    var cur := a[zz := tmp];
    forall j {:trigger Up(j)} | 2 <= j <= n && Up(j) == zz ensures w[cur[zz]] <= w[cur[j]] {
      assert cur[j] == a[j];
    }
    DownEnd(w, cur, n, zz);
    hide PermIn, Ordered, OrderedButDown;
  }

  lemma SinkStart(w: seq<int>, a: seq<int>, n: int)
    requires OrderedButDown(w, a, n, 1)
    ensures Sinking(w, a, a, n, 1, a[1])
  {
    assert a[1 := a[1]] == a;
  }

  lemma SinkBounds(w: seq<int>, start: seq<int>, a: seq<int>, n: int, zz: int, tmp: int)
    requires Sinking(w, start, a, n, zz, tmp)
    ensures 1 <= zz <= n && Entries(w, a, n) && 1 <= tmp < |w|
  {
  }

  method PickChild(heap: array<int>, weight: array<int>, nHeap: int, zz: int) returns (yy: int)
    requires Entries(weight[..], heap[..], nHeap) && 1 <= zz && 2 * zz <= nHeap
    ensures LighterChild(weight[..], heap[..], nHeap, zz, yy) && zz < yy
  {
    yy := 2 * zz;
    assert forall j :: 1 <= j <= nHeap ==> heap[..][j] == heap[j];
    if yy < nHeap && weight[heap[yy + 1]] < weight[heap[yy]] {
      yy := yy + 1;
    }
  }

  method DownHeap(heap: array<int>, weight: array<int>, nHeap: int)
    requires heap != weight && 1 <= nHeap < heap.Length && OrderedButDown(weight[..], heap[..], nHeap, 1)
    modifies heap
    ensures Ordered(weight[..], heap[..], nHeap) && PermIn(old(heap[..]), heap[..], 1, nHeap + 1)
    ensures heap[0] == old(heap[0])
  {
    ghost var w, start := weight[..], heap[..];
    var zz, yy := 1, 1;
    var tmp := heap[zz];
    SinkStart(w, heap[..], nHeap);
    hide Sinking, PermIn, OrderedButDown, Ordered, Up;
    while true
      invariant 1 <= zz <= nHeap && heap[0] == start[0]
      invariant Sinking(w, start, heap[..], nHeap, zz, tmp)
      decreases nHeap - zz
    {
      SinkBounds(w, start, heap[..], nHeap, zz, tmp);
      if 2 * zz > nHeap { break; }
      yy := PickChild(heap, weight, nHeap, zz);
      if weight[tmp] < weight[heap[yy]] { break; }
      SinkStep(w, start, heap[..], nHeap, zz, yy, tmp);
      heap[zz] := heap[yy];
      zz := yy;
    }
    SinkEnd(w, start, heap[..], nHeap, zz, yy, tmp);
    heap[zz] := tmp;
  }

  // ---- the heap as a set of nodes ----

  ghost predicate InHeap(h: seq<int>, n: int, x: int) {
    exists j :: 1 <= j <= n && j < |h| && h[j] == x
  }

  // Entries 1..n list the nodes of S, each once.
  ghost predicate Listed(h: seq<int>, n: int, S: set<int>) {
    && 0 <= n < |h|
    && (forall i, j :: 1 <= i < j <= n ==> h[i] != h[j])
    && (forall x :: x in S <==> InHeap(h, n, x))
  }

  lemma ListedPerm(h: seq<int>, g: seq<int>, n: int, m: int, S: set<int>)
    requires Listed(h, n, S) && m == n + 1 && PermIn(h, g, 1, m)
    ensures Listed(g, n, S)
  {
    forall x ensures InHeap(g, n, x) <==> InHeap(h, n, x) {
      if InHeap(g, n, x) {
        var j :| 1 <= j <= n && j < |g| && g[j] == x;
        var i := PermInFrom(h, g, 1, m, j);
      }
      if InHeap(h, n, x) {
        var j :| 1 <= j <= n && j < |h| && h[j] == x;
        var i := PermInFrom(g, h, 1, m, j);
      }
    }
    var a, b := h[1..m], g[1..m];
    forall i, j | 1 <= i < j <= n ensures g[i] != g[j] {
      if g[i] == g[j] {
        assert b[i - 1] == g[i] && b[j - 1] == g[j];
        TwiceIn(b, i - 1, j - 1);
        OnceIn(a, b[i - 1]);
      }
    }
  }

  lemma ListedRemove(h: seq<int>, n: int, S: set<int>, g: seq<int>, m: int)
    requires Listed(h, n, S) && 1 <= n && g == h[1 := h[n]] && m == n - 1
    ensures h[1] in S && Listed(g, m, S - {h[1]})
  {
    assert InHeap(h, n, h[1]);
    forall x ensures InHeap(g, m, x) <==> x in S && x != h[1] {
      if x in S && x != h[1] {
        var j :| 1 <= j <= n && j < |h| && h[j] == x;
        assert g[if j == n then 1 else j] == x;
      }
      if InHeap(g, m, x) {
        var j :| 1 <= j <= m && j < |g| && g[j] == x;
        assert h[if j == 1 then n else j] == x;
      }
    }
  }

  lemma ListedInsert(h: seq<int>, n: int, S: set<int>, x: int, g: seq<int>, m: int)
    requires Listed(h, n, S) && m == n + 1 < |h| && g == h[m := x] && x !in S
    ensures Listed(g, m, S + {x})
  {
    assert g[m] == x;
    forall y ensures InHeap(g, m, y) <==> y in S || y == x {
      if y in S {
        var j :| 1 <= j <= n && j < |h| && h[j] == y;
        assert g[j] == y;
      }
      if InHeap(g, m, y) && y != x {
        var j :| 1 <= j <= m && j < |g| && g[j] == y;
        assert h[j] == y;
        assert InHeap(h, n, y);
      }
    }
    forall i | 1 <= i <= n ensures g[i] != x {
      assert InHeap(h, n, h[i]);
    }
  }

  lemma SmallestListed(w: seq<int>, h: seq<int>, n: int, S: set<int>)
    requires Ordered(w, h, n) && Listed(h, n, S) && 1 <= n
    ensures 1 <= h[1] < |w| && h[1] in S && forall x :: x in S ==> 1 <= x < |w| && w[h[1]] <= w[x]
  {
    assert InHeap(h, n, h[1]);
    forall x | x in S ensures 1 <= x < |w| && w[h[1]] <= w[x] {
      var j :| 1 <= j <= n && j < |h| && h[j] == x;
      RootSmallest(w, h, n, j);
    }
  }

  // Remove the lightest node and restore the order.
  method ExtractMin(heap: array<int>, weight: array<int>, nHeap: int, n: int, ghost S: set<int>) returns (node: int)
    requires n == nHeap - 1 && heap != weight && 1 <= nHeap < heap.Length && Ordered(weight[..], heap[..], nHeap) && Listed(heap[..], nHeap, S)
    modifies heap
    ensures node in S && 1 <= node < weight.Length && forall x :: x in S ==> 1 <= x < weight.Length && weight[node] <= weight[x]
    ensures Ordered(weight[..], heap[..], n) && Listed(heap[..], n, S - {node})
    ensures heap[0] == old(heap[0])
  {
    ghost var w, h := weight[..], heap[..];
    SmallestListed(w, h, nHeap, S);
    LastToRoot(w, h, nHeap, S, n);
    hide Ordered, OrderedButDown, Listed, PermIn;
    node := heap[1];
    heap[1] := heap[nHeap];
    ghost var g := heap[..];
    assert g == h[1 := h[nHeap]];
    if n >= 1 {
      ghost var m := n + 1;
      DownHeap(heap, weight, n);
      ListedPerm(g, heap[..], n, m, S - {node});
    }
  }

  lemma LastToRoot(w: seq<int>, h: seq<int>, nHeap: int, S: set<int>, n: int)
    requires n == nHeap - 1 && 1 <= nHeap < |h| && Ordered(w, h, nHeap) && Listed(h, nHeap, S)
    ensures Listed(h[1 := h[nHeap]], n, S - {h[1]})
    ensures if n >= 1 then OrderedButDown(w, h[1 := h[nHeap]], n, 1) else Ordered(w, h[1 := h[nHeap]], n)
  {
    ListedRemove(h, nHeap, S, h[1 := h[nHeap]], n);
  }

  // Add a node and restore the order.
  method Insert(heap: array<int>, weight: array<int>, nHeap: int, n: int, x: int, ghost S: set<int>)
    requires n == nHeap + 1 && heap != weight && 0 <= nHeap && nHeap + 1 < heap.Length && Ordered(weight[..], heap[..], nHeap) && Listed(heap[..], nHeap, S)
    requires x !in S && 1 <= x < weight.Length && heap[0] == 0 && weight[0] == 0 && weight[x] >= 0
    modifies heap
    ensures Ordered(weight[..], heap[..], n) && Listed(heap[..], n, S + {x}) && heap[0] == 0
  {
    ghost var h := heap[..];
    heap[n] := x;
    ListedInsert(h, nHeap, S, x, heap[..], n);
    assert OrderedButUp(weight[..], heap[..], n, n);
    hide Ordered, OrderedButUp, Listed, PermIn;
    ghost var g, m := heap[..], n + 1;
    UpHeap(heap, weight, n);
    ListedPerm(g, heap[..], n, m, S + {x});
  }

  // Writing the weight of a node outside the heap does not disturb the order.
  lemma OrderedElsewhere(w: seq<int>, h: seq<int>, n: int, S: set<int>, t: int, z: int)
    requires Ordered(w, h, n) && Listed(h, n, S) && 1 <= t < |w| && t !in S
    ensures Ordered(w[t := z], h, n)
  {
    forall j | 1 <= j <= n ensures h[j] != t {
      assert InHeap(h, n, h[j]);
    }
  }
}
