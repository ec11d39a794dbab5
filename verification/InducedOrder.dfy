// Why one pass over a sorted big bucket sorts the buckets of its predecessors: positions
// whose rotation is above or below the one that follows, and the lists the scan produces.
module InducedOrder {
  import opened Rotations
  import opened MainSimpleSort

  // The rotation after p is below (down) or above that at p.
  ghost predicate Typed(b: seq<byte>, down: bool, p: int) {
    0 <= p < |b| && if down then Cmp(b, Next(p, |b|), p, |b|) < 0 else Cmp(b, Next(p, |b|), p, |b|) > 0
  }

  ghost predicate AllSame(b: seq<byte>) {
    forall i, j :: 0 <= i < |b| && 0 <= j < |b| ==> b[i] == b[j]
  }

  lemma TypeByPair(b: seq<byte>, p: int)
    requires 0 <= p < |b|
    ensures b[Next(p, |b|)] < b[p] ==> Typed(b, true, p) && !Typed(b, false, p)
    ensures b[Next(p, |b|)] > b[p] ==> Typed(b, false, p) && !Typed(b, true, p)
  {
  }

  lemma NextPrev(n: int, p: int)
    requires 0 <= p < n
    ensures 0 <= Next(p, n) < n && 0 <= Prev(p, n) < n
    ensures Next(Prev(p, n), n) == p && Prev(Next(p, n), n) == p
  {
  }

  // A repeated symbol passes the type on.
  lemma TypeInherited(b: seq<byte>, down: bool, p: int)
    requires 0 <= p < |b| && b[Next(p, |b|)] == b[p]
    ensures Typed(b, down, p) <==> Typed(b, down, Next(p, |b|))
  {
    var n := |b|;
    var q := Next(p, n);
    NextPrev(n, p);
    NextPrev(n, q);
    CmpPrepend(b, Next(q, n), q);
  }

  // Positions going down come before those going up with the same symbol.
  lemma {:induction false} DownBeforeUp(b: seq<byte>, p: int, q: int, d: nat)
    requires 0 <= p < |b| && 0 <= q < |b| && b[p] == b[q] && Typed(b, true, p) && Typed(b, false, q)
    requires Cmp(b, Next(p, |b|), p, d) < 0
    ensures Cmp(b, p, q, |b|) < 0
    decreases d
  {
    var n := |b|;
    var p1, q1 := Next(p, n), Next(q, n);
    NextPrev(n, p);
    NextPrev(n, q);
    TypeByPair(b, p);
    TypeByPair(b, q);
    CmpPrepend(b, p1, q1);
    if b[p1] == b[p] && b[q1] == b[q] {
      TypeInherited(b, true, p);
      TypeInherited(b, false, q);
      DownBeforeUp(b, p1, q1, d - 1);
    }
  }

  lemma {:induction false} ShiftsEqual(b: seq<byte>, p: int, k: nat)
    requires 0 <= p < |b| && Cmp(b, Next(p, |b|), p, |b|) == 0 && k <= |b|
    ensures 0 <= Shift(p, k, |b|) < |b| || k == |b|
    ensures k < |b| ==> b[Shift(p, k, |b|)] == b[p]
  {
    if 0 < k < |b| {
      var n := |b|;
      ShiftsEqual(b, p, k - 1);
      CmpFullZero(b, Next(p, n), p, k);
      CmpFullZero(b, Next(p, n), p, k - 1);
      CmpAdd(b, Next(p, n), p, k - 1, 1);
      assert Shift(Next(p, n), k - 1, n) == Shift(p, k, n);
    }
  }

  // A position of neither type occurs only in a block of one symbol.
  lemma UntypedAllSame(b: seq<byte>, p: int)
    requires 0 <= p < |b| && !Typed(b, true, p) && !Typed(b, false, p)
    ensures AllSame(b)
  {
    var n := |b|;
    forall i | 0 <= i < n ensures b[i] == b[p] {
      var k := if p <= i then i - p else i - p + n;
      ShiftsEqual(b, p, k);
      assert Shift(p, k, n) == i;
    }
  }

  lemma {:induction false} AllSameEqual(b: seq<byte>, i: int, j: int, d: nat)
    requires AllSame(b) && 0 <= i < |b| && 0 <= j < |b|
    ensures Cmp(b, i, j, d) == 0
    decreases d
  {
    if d > 0 {
      NextPrev(|b|, i);
      NextPrev(|b|, j);
      AllSameEqual(b, Next(i, |b|), Next(j, |b|), d - 1);
    }
  }

  // ---- the predecessors a scan writes ----

  ghost predicate Positions(b: seq<byte>, xs: seq<int>) {
    forall i :: 0 <= i < |xs| ==> 0 <= xs[i] < |b|
  }

  // The predecessors of the scanned positions xs that carry symbol t, in scanning order.
  ghost function Preds(b: seq<byte>, xs: seq<int>, t: int): (ps: seq<int>)
    requires Positions(b, xs)
    ensures |ps| <= |xs|
  {
    if xs == [] then []
    else
      var k := Prev(xs[|xs| - 1], |b|);
      Preds(b, xs[..|xs| - 1], t) + if b[k] == t then [k] else []
  }

  lemma PredsStep(b: seq<byte>, xs: seq<int>, x: int, t: int)
    requires Positions(b, xs) && 0 <= x < |b|
    ensures Positions(b, xs + [x])
    ensures Preds(b, xs + [x], t) == Preds(b, xs, t) + if b[Prev(x, |b|)] == t then [Prev(x, |b|)] else []
  {
    assert (xs + [x])[..|xs|] == xs;
  }

  // Where a written predecessor came from, in order.
  lemma {:induction false} PredsFrom(b: seq<byte>, xs: seq<int>, t: int, i: int) returns (r: int)
    requires Positions(b, xs) && 0 <= i < |Preds(b, xs, t)|
    ensures 0 <= r < |xs| && Preds(b, xs, t)[i] == Prev(xs[r], |b|) && b[Prev(xs[r], |b|)] == t
    ensures i == |Preds(b, xs[..r], t)|
  {
    var k := |xs| - 1;
    if i < |Preds(b, xs[..k], t)| {
      r := PredsFrom(b, xs[..k], t, i);
      assert xs[..k][..r] == xs[..r];
    } else {
      r := k;
    }
  }

  lemma {:induction false} PredsShort(b: seq<byte>, xs: seq<int>, t: int, r: int, q: int)
    requires Positions(b, xs) && 0 <= r <= q <= |xs|
    ensures |Preds(b, xs[..r], t)| <= |Preds(b, xs[..q], t)|
    decreases q
  {
    if r < q {
      assert xs[..q][..q - 1] == xs[..q - 1];
      PredsShort(b, xs, t, r, q - 1);
    }
  }

  // Later predecessors come from later scanned positions.
  lemma PredsOrder(b: seq<byte>, xs: seq<int>, t: int, i: int, j: int) returns (r: int, q: int)
    requires Positions(b, xs) && 0 <= i < j < |Preds(b, xs, t)|
    ensures 0 <= r < q < |xs| && Preds(b, xs, t)[i] == Prev(xs[r], |b|) && Preds(b, xs, t)[j] == Prev(xs[q], |b|)
    ensures b[Prev(xs[r], |b|)] == t == b[Prev(xs[q], |b|)]
  {
    r := PredsFrom(b, xs, t, i);
    q := PredsFrom(b, xs, t, j);
    if q <= r {
      PredsShort(b, xs, t, q, r);
    }
  }

  // Every predecessor with symbol t is written.
  lemma {:induction false} PredsHit(b: seq<byte>, xs: seq<int>, t: int, r: int) returns (i: int)
    requires Positions(b, xs) && 0 <= r < |xs| && b[Prev(xs[r], |b|)] == t
    ensures 0 <= i < |Preds(b, xs, t)| && Preds(b, xs, t)[i] == Prev(xs[r], |b|)
    decreases |xs|
  {
    var k := |xs| - 1;
    if r < k {
      i := PredsHit(b, xs[..k], t, r);
    } else {
      i := |Preds(b, xs[..k], t)|;
    }
  }

  ghost predicate Ord(b: seq<byte>, down: bool, x: int, y: int) {
    if down then Le(b, x, y) else Le(b, y, x)
  }

  // Distinct positions in scanning order.
  ghost predicate Ranked(b: seq<byte>, down: bool, w: seq<int>) {
    forall i, j :: 0 <= i < j < |w| ==> w[i] != w[j] && Ord(b, down, w[i], w[j])
  }

  // Positions of symbol ss, all of one type, in scanning order.
  ghost predicate Listing(b: seq<byte>, ss: int, down: bool, w: seq<int>) {
    && Positions(b, w) && Ranked(b, down, w)
    && (forall i :: 0 <= i < |w| ==> b[w[i]] == ss && Typed(b, down, w[i]))
  }

  lemma PrevOrd(b: seq<byte>, down: bool, x: int, y: int)
    requires 0 <= x < |b| && 0 <= y < |b| && b[Prev(x, |b|)] == b[Prev(y, |b|)] && Ord(b, down, x, y)
    ensures Ord(b, down, Prev(x, |b|), Prev(y, |b|))
    ensures x != y ==> Prev(x, |b|) != Prev(y, |b|)
  {
    CmpPrepend(b, x, y);
    CmpPrepend(b, y, x);
  }

  // Scanning in order writes every bucket in order.
  lemma PredsRanked(b: seq<byte>, ss: int, down: bool, xs: seq<int>, t: int)
    requires Listing(b, ss, down, xs)
    ensures Positions(b, Preds(b, xs, t)) && Ranked(b, down, Preds(b, xs, t))
  {
    var ps := Preds(b, xs, t);
    forall i | 0 <= i < |ps| ensures 0 <= ps[i] < |b| {
      var r := PredsFrom(b, xs, t, i);
    }
    forall i, j | 0 <= i < j < |ps| ensures ps[i] != ps[j] && Ord(b, down, ps[i], ps[j]) {
      var r, q := PredsOrder(b, xs, t, i, j);
      PrevOrd(b, down, xs[r], xs[q]);
    }
  }

  // The scan of one side of big bucket ss: xs has been scanned of first, the already sorted
  // small buckets on that side, and then of the predecessors found on the way.
  ghost predicate Chain(b: seq<byte>, ss: int, down: bool, first: seq<int>, xs: seq<int>) {
    && Positions(b, xs) && Positions(b, first)
    && |xs| <= |first| + |Preds(b, xs, ss)|
    && xs == (first + Preds(b, xs, ss))[..|xs|]
    && Listing(b, ss, down, first + Preds(b, xs, ss))
    && (forall i :: 0 <= i < |first| ==> b[Next(first[i], |b|)] != ss)
  }

  lemma ChainStart(b: seq<byte>, ss: int, down: bool, first: seq<int>)
    requires Listing(b, ss, down, first) && forall i :: 0 <= i < |first| ==> b[Next(first[i], |b|)] != ss
    ensures Chain(b, ss, down, first, [])
  {
    assert first + [] == first;
  }

  // A position whose next symbol repeats comes after one whose next symbol does not.
  lemma PairOrd(b: seq<byte>, ss: int, down: bool, x: int, k: int)
    requires 0 <= x < |b| && 0 <= k < |b| && b[x] == b[k] == ss && Typed(b, down, x)
    requires b[Next(x, |b|)] != ss && b[Next(k, |b|)] == ss
    ensures x != k && Ord(b, down, x, k)
  {
    TypeByPair(b, x);
    var n := |b|;
    NextPrev(n, x);
    NextPrev(n, k);
    CmpAnti(b, x, k, n);
    assert b[Next(x, n)] < b[Next(k, n)] ==> Cmp(b, x, k, 2) < 0;
    assert b[Next(x, n)] > b[Next(k, n)] ==> Cmp(b, x, k, 2) > 0;
    assert n >= 2;
    CmpExtend(b, x, k, 2, n);
  }

  // Scanning one more position keeps the list in order.
  lemma ChainStep(b: seq<byte>, ss: int, down: bool, first: seq<int>, xs: seq<int>, x: int)
    requires Chain(b, ss, down, first, xs) && |xs| < |first| + |Preds(b, xs, ss)|
    requires x == (first + Preds(b, xs, ss))[|xs|]
    ensures Chain(b, ss, down, first, xs + [x])
  {
    var ps, k := Preds(b, xs, ss), Prev(x, |b|);
    ChainPosition(b, ss, down, first, xs, x);
    PredsStep(b, xs, x, ss);
    if b[k] == ss {
      ChainListing(b, ss, down, first, xs, x);
    }
    hide Preds, Listing, Typed;
    PrefixGrows(first, ps, xs, x, k);
    assert first + (ps + []) == first + ps;
    assert first + (ps + [k]) == first + ps + [k];
  }

  lemma ChainPosition(b: seq<byte>, ss: int, down: bool, first: seq<int>, xs: seq<int>, x: int)
    requires Chain(b, ss, down, first, xs) && |xs| < |first| + |Preds(b, xs, ss)|
    requires x == (first + Preds(b, xs, ss))[|xs|]
    ensures 0 <= x < |b| && 0 <= Prev(x, |b|) < |b|
  {
  }

  lemma PrefixGrows(first: seq<int>, ps: seq<int>, xs: seq<int>, x: int, k: int)
    requires |xs| < |first| + |ps| && xs == (first + ps)[..|xs|] && x == (first + ps)[|xs|]
    ensures xs + [x] == (first + ps)[..|xs| + 1] == (first + (ps + [k]))[..|xs| + 1]
  {
  }

  lemma ChainListing(b: seq<byte>, ss: int, down: bool, first: seq<int>, xs: seq<int>, x: int)
    requires Chain(b, ss, down, first, xs) && |xs| < |first| + |Preds(b, xs, ss)|
    requires x == (first + Preds(b, xs, ss))[|xs|] && b[Prev(x, |b|)] == ss
    ensures Listing(b, ss, down, first + Preds(b, xs, ss) + [Prev(x, |b|)])
  {
    var n, ps := |b|, Preds(b, xs, ss);
    var w, k := first + ps, Prev(x, n);
    NextPrev(n, x);
    assert Typed(b, down, x) && b[x] == ss;
    TypeInherited(b, down, k);
    forall i | 0 <= i < |w| ensures w[i] != k && Ord(b, down, w[i], k) {
      if i < |first| {
        assert w[i] == first[i];
        PairOrd(b, ss, down, w[i], k);
      } else {
        var r := PredsFrom(b, xs, ss, i - |first|);
        assert w[r] == xs[r];
        PrevOrd(b, down, xs[r], x);
      }
    }
    hide Preds, Ord, Typed;
    var v := w + [k];
    forall i, j | 0 <= i < j < |v| ensures v[i] != v[j] && Ord(b, down, v[i], v[j]) {
      if j < |w| {
        assert v[i] == w[i] && v[j] == w[j];
      }
    }
  }

  // Everything in first has been scanned, and everything written for ss as well.
  ghost predicate Scanned(b: seq<byte>, ss: int, down: bool, first: seq<int>, xs: seq<int>) {
    Chain(b, ss, down, first, xs) && xs == first + Preds(b, xs, ss)
  }

  // A completed scan has met every position of its type: walk along the run of ss.
  lemma {:induction false} ScanComplete(b: seq<byte>, ss: int, down: bool, first: seq<int>, xs: seq<int>, p: int, d: nat)
    requires Scanned(b, ss, down, first, xs) && 0 <= p < |b| && b[p] == ss && Typed(b, down, p)
    requires Cmp(b, Next(p, |b|), p, d) != 0
    requires forall q :: 0 <= q < |b| && b[q] == ss && b[Next(q, |b|)] != ss && Typed(b, down, q) ==> q in first
    ensures p in xs
    decreases d
  {
    var n := |b|;
    var q := Next(p, n);
    NextPrev(n, p);
    if b[q] != ss {
      assert p in first;
    } else {
      TypeInherited(b, down, p);
      ScanComplete(b, ss, down, first, xs, q, d - 1);
      var r :| 0 <= r < |xs| && xs[r] == q;
      var i := PredsHit(b, xs, ss, r);
      assert xs[|first| + i] == p;
    }
  }
}
