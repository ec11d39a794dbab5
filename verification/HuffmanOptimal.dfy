// Merging the two lightest nodes again and again gives an optimal code: no lengths within the
// code space have a smaller weighted sum than the leaf depths of the tree.
module HuffmanOptimal {
  import opened Powers
  import opened HuffmanTree

  // x is a root, or its parent comes after node cut.
  predicate Open(par: seq<int>, x: int, cut: int)
    requires 0 <= x < |par|
  {
    par[x] == -1 || par[x] > cut
  }

  // Sum of f over the open nodes among the first m.
  function OpenSum(par: seq<int>, f: seq<int>, m: nat, cut: int): int
    requires m < |par| && m < |f|
  {
    if m == 0 then 0 else OpenSum(par, f, m - 1, cut) + if Open(par, m, cut) then f[m] else 0
  }

  lemma {:induction false} SumAgrees(par: seq<int>, f: seq<int>, g: seq<int>, m: nat, cut: int)
    requires m < |par| && m < |f| && m < |g| && forall x :: 1 <= x <= m && Open(par, x, cut) ==> f[x] == g[x]
    ensures OpenSum(par, f, m, cut) == OpenSum(par, g, m, cut)
  {
    if m > 0 {
      SumAgrees(par, f, g, m - 1, cut);
    }
  }

  lemma {:induction false} SumSet(par: seq<int>, f: seq<int>, m: nat, cut: int, a: int, v: int)
    requires m < |par| && m < |f| && 1 <= a <= m && Open(par, a, cut)
    ensures OpenSum(par, f[a := v], m, cut) == OpenSum(par, f, m, cut) - f[a] + v
  {
    if a == m {
      SumAgrees(par, f, f[a := v], m - 1, cut);
    } else {
      SumSet(par, f, m - 1, cut, a, v);
    }
  }

  lemma {:induction false} SumScaled(par: seq<int>, f: seq<int>, g: seq<int>, m: nat, cut: int, q: int)
    requires m < |par| && m < |f| && m < |g| && forall x :: 1 <= x <= m && Open(par, x, cut) ==> f[x] == Times(g[x], q)
    ensures OpenSum(par, f, m, cut) == Times(OpenSum(par, g, m, cut), q)
  {
    hide Times;
    if m > 0 {
      SumScaled(par, f, g, m - 1, cut, q);
      if Open(par, m, cut) {
        TimesAdd(OpenSum(par, g, m - 1, cut), g[m], q);
      }
    } else {
      TimesNone(q);
    }
  }

  lemma TimesNone(q: int)
    ensures Times(0, q) == 0 && Times(q, 0) == 0
  {
  }

  lemma {:induction false} SumNonNegative(par: seq<int>, f: seq<int>, m: nat, cut: int)
    requires m < |par| && m < |f| && forall x :: 1 <= x <= m && Open(par, x, cut) ==> f[x] >= 0
    ensures OpenSum(par, f, m, cut) >= 0
  {
    if m > 0 {
      SumNonNegative(par, f, m - 1, cut);
    }
  }

  lemma {:induction false} SumClosed(par: seq<int>, f: seq<int>, m: nat, cut: int)
    requires m < |par| && m < |f| && forall x :: 1 <= x <= m ==> !Open(par, x, cut)
    ensures OpenSum(par, f, m, cut) == 0
  {
    if m > 0 {
      SumClosed(par, f, m - 1, cut);
    }
  }

  // Lowering the cut past u opens the children of u.
  lemma {:induction false} SumCut(par: seq<int>, f: seq<int>, m: nat, t: int, u: int, a: int, b: int)
    requires m < |par| && m < |f| && u == t + 1 && t >= 0 && 1 <= a < |par| && 1 <= b < |par| && a < |f| && b < |f| && a != b
    requires par[a] == u == par[b] && forall y :: 1 <= y <= m && par[y] == u ==> y == a || y == b
    ensures OpenSum(par, f, m, t) == OpenSum(par, f, m, u) + (if a <= m then f[a] else 0) + (if b <= m then f[b] else 0)
  {
    if m > 0 {
      SumCut(par, f, m - 1, t, u, a, b);
    }
  }

  // ---- trees built by merging the lightest ----

  // Weights add up, and every merge took two lightest roots.
  ghost predicate Minimal(alpha: int, ws: seq<int>, par: seq<int>, c1: seq<int>, c2: seq<int>, n: int) {
    && Shape(alpha, par, c1, c2, n) && n < |ws|
    && (forall x :: 1 <= x <= n ==> ws[x] >= 0)
    && (forall u :: alpha < u <= n ==> ws[u] == ws[c1[u]] + ws[c2[u]])
    && (forall u, x :: alpha < u <= n && 1 <= x < u && Open(par, x, u - 1) && x != c1[u] && x != c2[u] ==> ws[c1[u]] <= ws[x] && ws[c2[u]] <= ws[x])
  }

  lemma MinimalStart(alpha: int, ws: seq<int>, par: seq<int>, c1: seq<int>, c2: seq<int>)
    requires 1 <= alpha < |par| && |c1| == |c2| == |par| && alpha < |ws|
    requires forall x :: 1 <= x <= alpha ==> par[x] == -1 && ws[x] >= 0
    ensures Minimal(alpha, ws, par, c1, c2, alpha)
  {
  }

  lemma ShapeRange(alpha: int, par: seq<int>, c1: seq<int>, c2: seq<int>, n: int)
    requires Shape(alpha, par, c1, c2, n)
    ensures 1 <= alpha <= n < |par| && |c1| == |c2| == |par|
    ensures forall u :: alpha < u <= n ==> 1 <= c1[u] < u && 1 <= c2[u] < u
    ensures forall x :: 1 <= x <= n ==> par[x] <= n
  {
  }

  lemma MinimalMerge(alpha: int, ws: seq<int>, par: seq<int>, c1: seq<int>, c2: seq<int>, n: int, n1: int, n2: int, t: int, ws': seq<int>, par': seq<int>)
    requires Minimal(alpha, ws, par, c1, c2, n) && t == n + 1 < |par| && |ws'| == |ws| && t < |ws|
    requires 1 <= n1 <= n && 1 <= n2 <= n && n1 != n2 && par[n1] == -1 && par[n2] == -1
    requires forall x :: 1 <= x <= n && par[x] == -1 && x != n1 && x != n2 ==> ws[n1] <= ws[x] && ws[n2] <= ws[x]
    requires par' == par[n1 := t][n2 := t][t := -1] && ws'[t] == ws[n1] + ws[n2] && forall x :: 1 <= x <= n ==> ws'[x] == ws[x]
    ensures Minimal(alpha, ws', par', c1[t := n1], c2[t := n2], t)
  {
    hide Shape;
    ShapeRange(alpha, par, c1, c2, n);
    ShapeMerge(alpha, par, c1, c2, n, n1, n2, t, par');
    var d1, d2 := c1[t := n1], c2[t := n2];
    ShapeRange(alpha, par', d1, d2, t);
    forall u, x | alpha < u <= t && 1 <= x < u && Open(par', x, u - 1) && x != d1[u] && x != d2[u]
      ensures ws'[d1[u]] <= ws'[x] && ws'[d2[u]] <= ws'[x]
    {
      if u < t {
        assert Open(par, x, u - 1);
      } else {
        assert par[x] == -1;
      }
    }
  }

  // ---- lengths ----

  // The code space of every length, in units of 2^-k.
  function Space(l: seq<int>, k: int): (f: seq<int>)
    ensures |f| == |l|
  {
    seq(|l|, x requires 0 <= x < |l| => if 0 <= l[x] <= k then Pow2(k - l[x]) else 0)
  }

  function Cost(ws: seq<int>, l: seq<int>): (f: seq<int>)
    requires |ws| == |l|
    ensures |f| == |l|
  {
    seq(|l|, x requires 0 <= x < |l| => Times(ws[x], l[x]))
  }

  lemma SpaceSet(l: seq<int>, k: int, a: int, v: int)
    requires 0 <= a < |l|
    ensures Space(l[a := v], k) == Space(l, k)[a := if 0 <= v <= k then Pow2(k - v) else 0]
  {
  }

  lemma CostSet(ws: seq<int>, l: seq<int>, a: int, v: int)
    requires |ws| == |l| && 0 <= a < |l|
    ensures Cost(ws, l[a := v]) == Cost(ws, l)[a := Times(ws[a], v)]
  {
    hide Times;
  }

  // Open nodes have lengths in 0..k.
  ghost predicate Ranged(par: seq<int>, l: seq<int>, t: int, k: int) {
    0 <= t < |par| && t < |l| && forall x :: 1 <= x <= t && Open(par, x, t) ==> 0 <= l[x] <= k
  }

  // Giving the longer of two lengths to the lighter node costs no more.
  lemma ExchangeLengths(par: seq<int>, ws: seq<int>, l: seq<int>, t: int, k: int, p: int, a: int) returns (l': seq<int>)
    requires Ranged(par, l, t, k) && |ws| == |l| && 1 <= p <= t && 1 <= a <= t && p != a && Open(par, p, t) && Open(par, a, t)
    requires ws[a] <= ws[p] && l[a] <= l[p]
    ensures |l'| == |l| && l' == l[a := l[p]][p := l[a]] && Ranged(par, l', t, k)
    ensures OpenSum(par, Space(l', k), t, t) == OpenSum(par, Space(l, k), t, t)
    ensures OpenSum(par, Cost(ws, l'), t, t) <= OpenSum(par, Cost(ws, l), t, t)
  {
    hide OpenSum, Times, Pow2, Space, Cost;
    var l1 := l[a := l[p]];
    l' := l1[p := l[a]];
    SpaceSet(l, k, a, l[p]);
    SpaceSet(l1, k, p, l[a]);
    CostSet(ws, l, a, l[p]);
    CostSet(ws, l1, p, l[a]);
    var f, g := Space(l, k), Cost(ws, l);
    SumSet(par, f, t, t, a, if 0 <= l[p] <= k then Pow2(k - l[p]) else 0);
    SumSet(par, Space(l1, k), t, t, p, if 0 <= l[a] <= k then Pow2(k - l[a]) else 0);
    SumSet(par, g, t, t, a, Times(ws[a], l[p]));
    SumSet(par, Cost(ws, l1), t, t, p, Times(ws[p], l[a]));
    SpaceAt(l, k, a);
    SpaceAt(l, k, p);
    CostAt(ws, l, a);
    CostAt(ws, l, p);
    TimesExchange(ws[a], ws[p], l[a], l[p]);
  }

  lemma SpaceAt(l: seq<int>, k: int, x: int)
    requires 0 <= x < |l|
    ensures Space(l, k)[x] == if 0 <= l[x] <= k then Pow2(k - l[x]) else 0
  {
    hide Pow2;
  }

  lemma CostAt(ws: seq<int>, l: seq<int>, x: int)
    requires |ws| == |l| && 0 <= x < |l|
    ensures Cost(ws, l)[x] == Times(ws[x], l[x])
  {
    hide Times;
  }

  lemma TimesExchange(v: int, w: int, m: int, n: int)
    requires v <= w && m <= n
    ensures Times(v, n) + Times(w, m) <= Times(v, m) + Times(w, n)
  {
    assert (w - v) * (n - m) >= 0;
    assert (w - v) * (n - m) == w * n - w * m - v * n + v * m;
  }

  // A longest open node other than e.
  lemma {:induction false} Longest(par: seq<int>, l: seq<int>, m: nat, t: int, e: int, s: int) returns (p: int)
    requires 0 <= t < |par| && m <= t < |l| && 1 <= s <= m && s != e && Open(par, s, t)
    ensures 1 <= p <= m && p != e && Open(par, p, t) && forall x :: 1 <= x <= m && x != e && Open(par, x, t) ==> l[x] <= l[p]
  {
    p := s;
    if exists r :: 1 <= r < m && r != e && Open(par, r, t) {
      var r :| 1 <= r < m && r != e && Open(par, r, t);
      p := Longest(par, l, m - 1, t, e, r);
      if m != e && Open(par, m, t) && l[m] > l[p] {
        p := m;
      }
    } else {
      assert s == m;
    }
  }

  // ---- the step ----

  // a is longest of the open nodes and b second.
  ghost predicate Deepest(par: seq<int>, l: seq<int>, t: int, a: int, b: int) {
    && 0 <= t < |par| && t < |l| && 1 <= a <= t && 1 <= b <= t && a != b && Open(par, a, t) && Open(par, b, t)
    && l[b] <= l[a] && forall x :: 1 <= x <= t && x != a && Open(par, x, t) ==> l[x] <= l[b]
  }

  // Two lightest nodes can be given the greatest lengths at no cost.
  lemma Deepen(par: seq<int>, ws: seq<int>, l: seq<int>, t: int, k: int, a0: int, b0: int) returns (l': seq<int>, a: int, b: int)
    requires Ranged(par, l, t, k) && |ws| == |l| && 1 <= a0 <= t && 1 <= b0 <= t && a0 != b0 && Open(par, a0, t) && Open(par, b0, t)
    requires forall x :: 1 <= x <= t && Open(par, x, t) && x != a0 && x != b0 ==> ws[a0] <= ws[x] && ws[b0] <= ws[x]
    ensures |l'| == |l| && Ranged(par, l', t, k) && Deepest(par, l', t, a, b) && ((a == a0 && b == b0) || (a == b0 && b == a0))
    ensures OpenSum(par, Space(l', k), t, t) == OpenSum(par, Space(l, k), t, t)
    ensures OpenSum(par, Cost(ws, l'), t, t) <= OpenSum(par, Cost(ws, l), t, t)
  {
    hide OpenSum, Space, Cost, Ranged;
    RangedSize(par, l, t, k);
    var p := Longest(par, l, t, t, 0, a0);
    a, b := if p == b0 then b0 else a0, if p == b0 then a0 else b0;
    var l1 := l;
    if p != a {
      l1 := ExchangeLengths(par, ws, l, t, k, p, a);
    }
    var q := Longest(par, l1, t, t, a, b);
    l' := l1;
    if q != b {
      l' := ExchangeLengths(par, ws, l1, t, k, q, b);
    }
  }

  lemma RangedSize(par: seq<int>, l: seq<int>, t: int, k: int)
    requires Ranged(par, l, t, k)
    ensures 0 <= t < |par| && t < |l|
  {
  }

  // The longest length can be cut back to the second longest without leaving the code space,
  // because everything else comes in units of that.
  lemma CutBack(par: seq<int>, l: seq<int>, t: int, k: nat, a: int, b: int)
    requires Ranged(par, l, t, k) && Deepest(par, l, t, a, b) && OpenSum(par, Space(l, k), t, t) <= Pow2(k)
    ensures 1 <= l[b] <= k && Ranged(par, l[a := l[b]], t, k) && OpenSum(par, Space(l[a := l[b]], k), t, t) <= Pow2(k)
  {
    hide Pow2, Times, OpenSum, Space;
    var d, f := l[b], Space(l, k);
    var q, e, g := Pow2(k - d), Space(l, k)[a := 0], Space(l, d)[a := 0];
    InUnits(par, l, t, k, a, b);
    SumScaled(par, e, g, t, t, q);
    SumSet(par, f, t, t, a, 0);
    SpaceAt(l, k, a);
    SpaceSet(l, k, a, d);
    SumSet(par, f, t, t, a, q);
    var m := OpenSum(par, g, t, t);
    TimesPow(d, k - d);
    UnitsFit(m, q, Pow2(d), Pow2(k - l[a]));
    OneUnit(par, l, t, d, a, b, g);
  }

  // Measured in the space of length l[b], every other open length is a whole number.
  lemma InUnits(par: seq<int>, l: seq<int>, t: int, k: nat, a: int, b: int)
    requires Ranged(par, l, t, k) && Deepest(par, l, t, a, b)
    ensures 0 <= l[b] <= k
    ensures forall x :: 1 <= x <= t && Open(par, x, t) ==> Space(l, k)[a := 0][x] == Times(Space(l, l[b])[a := 0][x], Pow2(k - l[b]))
  {
    hide Pow2, Times;
    forall x | 1 <= x <= t && Open(par, x, t) ensures Space(l, k)[a := 0][x] == Times(Space(l, l[b])[a := 0][x], Pow2(k - l[b])) {
      if x == a {
        TimesNone(Pow2(k - l[b]));
      } else {
        TimesPow(l[b] - l[x], k - l[b]);
      }
    }
  }

  // m units and something more within p units: another unit fits.
  lemma UnitsFit(m: int, q: int, p: int, more: int)
    requires q >= 1 && more >= 1 && Times(m, q) + more <= Times(p, q)
    ensures m < p && Times(m, q) + q <= Times(p, q)
  {
    hide Times;
    if m >= p {
      TimesMonotone(p, m, q);
    }
    TimesMonotone(m + 1, p, q);
    TimesAdd(m, 1, q);
    TimesOne(q);
  }

  // Node b alone takes one unit, so its length is not zero.
  lemma OneUnit(par: seq<int>, l: seq<int>, t: int, d: int, a: int, b: int, g: seq<int>)
    requires Deepest(par, l, t, a, b) && d == l[b] >= 0 && g == Space(l, d)[a := 0] && OpenSum(par, g, t, t) < Pow2(d)
    ensures d >= 1
  {
    SumSet(par, g, t, t, b, 0);
    SumNonNegative(par, g[b := 0], t, t);
    assert g[b] == Pow2(0) == 1;
  }

  // ---- optimality ----

  ghost function Depths(par: seq<int>, n: int): (d: seq<int>)
    requires n < |par| && Upward(par, n)
    ensures |d| == |par| && forall x :: 1 <= x <= n ==> d[x] == Depth(par, n, x)
  {
    seq(|par|, x requires 0 <= x < |par| => if 1 <= x <= n then Depth(par, n, x) else 0)
  }

  // From node t on: no lengths of the roots at stage t within the code space beat their depths.
  lemma {:induction false} BestFrom(alpha: int, ws: seq<int>, par: seq<int>, c1: seq<int>, c2: seq<int>, n: int, t: int, l: seq<int>, k: nat)
    requires Minimal(alpha, ws, par, c1, c2, n) && Tree(alpha, par, c1, c2, n) && alpha <= t <= n && |l| == |par| == |ws|
    requires Ranged(par, l, t, k) && OpenSum(par, Space(l, k), t, t) <= Pow2(k)
    ensures Upward(par, n) && OpenSum(par, Cost(ws, Depths(par, n)), t, t) <= OpenSum(par, Cost(ws, l), t, t)
    decreases n - t
  {
    if t == n {
      RootCosts(alpha, ws, par, c1, c2, n, l, k);
    } else {
      var u := t + 1;
      hide OpenSum, Space, Cost, Times, Pow2, Depths, Depth, Ranged, Deepest;
      ChildrenOpen(alpha, ws, par, c1, c2, n, t, u);
      var l1, a, b := Deepen(par, ws, l, t, k, c1[u], c2[u]);
      CutBack(par, l1, t, k, a, b);
      var l2 := MergeLengths(par, ws, l1, t, k, u, a, b);
      BestFrom(alpha, ws, par, c1, c2, n, u, l2, k);
      DepthCosts(par, ws, n, t, u, a, b);
    }
  }

  // The two children of u are open at stage t, are lightest there, and u is not yet a node.
  lemma ChildrenOpen(alpha: int, ws: seq<int>, par: seq<int>, c1: seq<int>, c2: seq<int>, n: int, t: int, u: int)
    requires Minimal(alpha, ws, par, c1, c2, n) && Tree(alpha, par, c1, c2, n) && alpha <= t < n && u == t + 1
    ensures Upward(par, n) && u < |par| && 1 <= c1[u] <= t && 1 <= c2[u] <= t && c1[u] != c2[u] && Open(par, c1[u], t) && Open(par, c2[u], t)
    ensures par[c1[u]] == u == par[c2[u]] && (forall y :: 1 <= y <= t && par[y] == u ==> y == c1[u] || y == c2[u]) && Open(par, u, u)
    ensures ws[u] == ws[c1[u]] + ws[c2[u]] && ws[c1[u]] >= 0 && ws[c2[u]] >= 0
    ensures forall x :: 1 <= x <= t && Open(par, x, t) && x != c1[u] && x != c2[u] ==> ws[c1[u]] <= ws[x] && ws[c2[u]] <= ws[x]
  {
  }

  lemma RootCosts(alpha: int, ws: seq<int>, par: seq<int>, c1: seq<int>, c2: seq<int>, n: int, l: seq<int>, k: nat)
    requires Minimal(alpha, ws, par, c1, c2, n) && Tree(alpha, par, c1, c2, n) && |l| == |par| == |ws| && Ranged(par, l, n, k)
    ensures Upward(par, n) && OpenSum(par, Cost(ws, Depths(par, n)), n, n) <= OpenSum(par, Cost(ws, l), n, n)
  {
    hide Times, Cost;
    var d := Depths(par, n);
    SumClosed(par, Cost(ws, d), n - 1, n);
    SumClosed(par, Cost(ws, l), n - 1, n);
    CostAt(ws, d, n);
    CostAt(ws, l, n);
    TimesNone(ws[n]);
    TimesLess(ws[n], 0, l[n]);
  }

  // The merged node gets a length one less than its two children.
  lemma MergeLengths(par: seq<int>, ws: seq<int>, l: seq<int>, t: int, k: nat, u: int, a: int, b: int) returns (l': seq<int>)
    requires Ranged(par, l, t, k) && Deepest(par, l, t, a, b) && u == t + 1 < |par| == |l| == |ws| && 1 <= l[b] <= k && Open(par, u, u)
    requires par[a] == u == par[b] && (forall y :: 1 <= y <= t && par[y] == u ==> y == a || y == b) && ws[u] == ws[a] + ws[b] && ws[a] >= 0
    requires OpenSum(par, Space(l[a := l[b]], k), t, t) <= Pow2(k)
    ensures |l'| == |l| && Ranged(par, l', u, k) && OpenSum(par, Space(l', k), u, u) <= Pow2(k)
    ensures OpenSum(par, Cost(ws, l'), u, u) + ws[u] <= OpenSum(par, Cost(ws, l), t, t)
  {
    var d := l[b];
    l' := l[a := d][u := d - 1];
    hide OpenSum, Times, Space, Cost;
    MergedSum(par, Space(l', k), t, u, a, b);
    SumAgreesBelow(par, Space(l', k), Space(l[a := d], k), t, u) by {
      SpaceSet(l[a := d], k, u, d - 1);
    }
    SpaceAt(l', k, a);
    SpaceAt(l', k, b);
    SpaceAt(l', k, u);
    assert Pow2(k - (d - 1)) == 2 * Pow2(k - d);
    MergedSum(par, Cost(ws, l'), t, u, a, b);
    CostSet(ws, l, a, d);
    CostSet(ws, l[a := d], u, d - 1);
    SumAgreesBelow(par, Cost(ws, l'), Cost(ws, l[a := d]), t, u);
    SumSet(par, Cost(ws, l), t, t, a, Times(ws[a], d));
    CostAt(ws, l', a);
    CostAt(ws, l', b);
    CostAt(ws, l', u);
    CostAt(ws, l, a);
    ParentCost(ws[a], ws[b], d);
    TimesLess(ws[a], d, l[a]);
  }

  lemma ParentCost(v: int, w: int, d: int)
    ensures Times(v + w, d - 1) + (v + w) == Times(v, d) + Times(w, d)
  {
  }

  lemma TimesLess(v: int, m: int, n: int)
    requires v >= 0 && m <= n
    ensures Times(v, m) <= Times(v, n)
  {
    assert v * (n - m) >= 0;
  }

  lemma SumAgreesBelow(par: seq<int>, f: seq<int>, g: seq<int>, t: int, u: int)
    requires 0 <= t < |par| && u == t + 1 < |g| == |f| && f == g[u := f[u]]
    ensures OpenSum(par, f, t, t) == OpenSum(par, g, t, t)
  {
    SumAgrees(par, f, g, t, t);
  }

  // Stage t sums two children where stage u sums their parent.
  lemma MergedSum(par: seq<int>, f: seq<int>, t: int, u: int, a: int, b: int)
    requires 0 <= t && u == t + 1 < |par| == |f| && 1 <= a <= t && 1 <= b <= t && a != b && Open(par, u, u)
    requires par[a] == u == par[b] && forall y :: 1 <= y <= t && par[y] == u ==> y == a || y == b
    ensures OpenSum(par, f, u, u) + f[a] + f[b] == OpenSum(par, f, t, t) + f[u]
  {
    SumCut(par, f, t, t, u, a, b);
  }

  lemma DepthCosts(par: seq<int>, ws: seq<int>, n: int, t: int, u: int, a: int, b: int)
    requires 0 <= t && u == t + 1 <= n < |par| == |ws| && Upward(par, n) && 1 <= a <= t && 1 <= b <= t && a != b && Open(par, u, u)
    requires par[a] == u == par[b] && (forall y :: 1 <= y <= t && par[y] == u ==> y == a || y == b) && ws[u] == ws[a] + ws[b]
    ensures OpenSum(par, Cost(ws, Depths(par, n)), t, t) == OpenSum(par, Cost(ws, Depths(par, n)), u, u) + ws[u]
  {
    var d := Depths(par, n);
    assert d[a] == d[u] + 1 == d[b];
    hide OpenSum, Times, Cost, Depths;
    MergedSum(par, Cost(ws, d), t, u, a, b);
    CostAt(ws, d, a);
    CostAt(ws, d, b);
    CostAt(ws, d, u);
    ParentCost(ws[a], ws[b], d[a]);
  }

  // ---- the code of a tree ----

  // What the symbols cost in all: the bits of a text in which symbol i occurs ws[i] times.
  function WeightedLength(ws: seq<int>, len: seq<int>): int
    requires |ws| == |len|
  {
    if ws == [] then 0
    else WeightedLength(ws[..|ws| - 1], len[..|len| - 1]) + Times(ws[|ws| - 1], len[|len| - 1])
  }

  // No lengths that leave every symbol a code of its own cost less.
  ghost predicate Optimal(ws: seq<int>, len: seq<int>) {
    && |ws| == |len|
    && forall l: seq<int>, m: nat {:trigger Kraft(l, m)} ::
         |l| == |ws| && (forall i :: 0 <= i < |l| ==> 0 <= l[i] <= m) && Kraft(l, m) <= Pow2(m) ==> WeightedLength(ws, len) <= WeightedLength(ws, l)
  }

  lemma {:induction false} LeafCosts(par: seq<int>, f: seq<int>, v: seq<int>, l: seq<int>, alpha: int)
    requires |v| == |l| <= alpha < |par| && alpha < |f| && forall x :: 1 <= x <= alpha ==> Open(par, x, alpha)
    requires forall x :: 1 <= x <= |l| ==> f[x] == Times(v[x - 1], l[x - 1])
    ensures OpenSum(par, f, |l|, alpha) == WeightedLength(v, l)
  {
    hide Times;
    if l != [] {
      LeafCosts(par, f, v[..|v| - 1], l[..|l| - 1], alpha);
    }
  }

  lemma {:induction false} LeafSpace(par: seq<int>, f: seq<int>, l: seq<int>, m: nat, alpha: int)
    requires |l| <= alpha < |par| && alpha < |f| && (forall i :: 0 <= i < |l| ==> 0 <= l[i] <= m) && forall x :: 1 <= x <= alpha ==> Open(par, x, alpha)
    requires forall x :: 1 <= x <= |l| ==> f[x] == Pow2(m - l[x - 1])
    ensures OpenSum(par, f, |l|, alpha) == Kraft(l, m)
  {
    hide Pow2;
    if l != [] {
      LeafSpace(par, f, l[..|l| - 1], m, alpha);
    }
  }

  lemma LeavesOpen(alpha: int, par: seq<int>, c1: seq<int>, c2: seq<int>, n: int)
    requires Shape(alpha, par, c1, c2, n)
    ensures alpha <= n < |par| && Upward(par, n) && forall x :: 1 <= x <= alpha ==> Open(par, x, alpha)
  {
  }

  // One rival code.
  lemma LeavesBeat(alpha: int, ws: seq<int>, par: seq<int>, c1: seq<int>, c2: seq<int>, n: int, len: seq<int>, l: seq<int>, m: nat)
    requires Minimal(alpha, ws, par, c1, c2, n) && Tree(alpha, par, c1, c2, n) && |ws| == |par| && |len| == alpha == |l|
    requires Upward(par, n) && forall i :: 0 <= i < alpha ==> len[i] == Depth(par, n, i + 1)
    requires (forall i :: 0 <= i < |l| ==> 0 <= l[i] <= m) && Kraft(l, m) <= Pow2(m)
    ensures WeightedLength(ws[1..alpha + 1], len) <= WeightedLength(ws[1..alpha + 1], l)
  {
    hide Minimal, Tree, Shape, Depth, Upward, OpenSum, Times, WeightedLength, Kraft, Pow2, Depths, Space, Cost, Open;
    MinimalShape(alpha, ws, par, c1, c2, n);
    LeavesOpen(alpha, par, c1, c2, n);
    var v, d := ws[1..alpha + 1], Depths(par, n);
    var lx := [0] + l + seq(|par| - alpha - 1, _ => 0);
    CostOf(alpha, ws, d, v, len);
    CostOf(alpha, ws, lx, v, l);
    SpaceOf(alpha, lx, l, m);
    LeafCosts(par, Cost(ws, d), v, len, alpha);
    LeafCosts(par, Cost(ws, lx), v, l, alpha);
    LeafSpace(par, Space(lx, m), l, m, alpha);
    LeavesRanged(par, lx, l, alpha, m);
    BestFrom(alpha, ws, par, c1, c2, n, alpha, lx, m);
  }

  lemma MinimalShape(alpha: int, ws: seq<int>, par: seq<int>, c1: seq<int>, c2: seq<int>, n: int)
    requires Minimal(alpha, ws, par, c1, c2, n)
    ensures Shape(alpha, par, c1, c2, n) && 1 <= alpha <= n < |par| && n < |ws|
  {
  }

  lemma CostOf(alpha: int, ws: seq<int>, d: seq<int>, v: seq<int>, l: seq<int>)
    requires 0 <= alpha < |ws| == |d| && v == ws[1..alpha + 1] && |l| == alpha && forall x :: 1 <= x <= alpha ==> d[x] == l[x - 1]
    ensures forall x :: 1 <= x <= alpha ==> Cost(ws, d)[x] == Times(v[x - 1], l[x - 1])
  {
    hide Times;
  }

  lemma SpaceOf(alpha: int, lx: seq<int>, l: seq<int>, m: nat)
    requires 0 <= alpha < |lx| && |l| == alpha && (forall x :: 1 <= x <= alpha ==> lx[x] == l[x - 1]) && forall i :: 0 <= i < alpha ==> 0 <= l[i] <= m
    ensures forall x :: 1 <= x <= alpha ==> Space(lx, m)[x] == Pow2(m - l[x - 1])
  {
    hide Pow2;
  }

  lemma LeavesRanged(par: seq<int>, lx: seq<int>, l: seq<int>, alpha: int, m: nat)
    requires 0 <= alpha < |par| && alpha < |lx| && |l| == alpha && (forall x :: 1 <= x <= alpha ==> lx[x] == l[x - 1]) && forall i :: 0 <= i < alpha ==> 0 <= l[i] <= m
    ensures Ranged(par, lx, alpha, m)
  {
  }

  // The leaf depths are an optimal code for the leaf weights.
  lemma LeavesOptimal(alpha: int, ws: seq<int>, par: seq<int>, c1: seq<int>, c2: seq<int>, n: int, len: seq<int>)
    requires Minimal(alpha, ws, par, c1, c2, n) && Tree(alpha, par, c1, c2, n) && |ws| == |par| && |len| == alpha
    requires Upward(par, n) && forall i :: 0 <= i < alpha ==> len[i] == Depth(par, n, i + 1)
    ensures Optimal(ws[1..alpha + 1], len)
  {
    hide Minimal, Tree, Depth, Upward, Times, WeightedLength, Kraft, Pow2;
    MinimalShape(alpha, ws, par, c1, c2, n);
    forall l: seq<int>, m: nat | |l| == alpha && (forall i :: 0 <= i < |l| ==> 0 <= l[i] <= m) && Kraft(l, m) <= Pow2(m)
      ensures WeightedLength(ws[1..alpha + 1], len) <= WeightedLength(ws[1..alpha + 1], l)
    {
      LeavesBeat(alpha, ws, par, c1, c2, n, len, l, m);
    }
  }
}
