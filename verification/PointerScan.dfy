// Step 2 of mainSort: scanning big bucket ss from both ends writes the sorted order of the
// small buckets [t, ss] of every big bucket t not yet done, including [ss, ss] itself.
module PointerScan {
  import opened Perms
  import opened Rotations
  import opened MainSimpleSort
  import opened PairBuckets
  import opened InducedOrder

  // Rows of small bucket [t, ss].
  ghost function Lo(b: seq<byte>, t: int, ss: int): int {
    Start(b, 256 * t + ss)
  }

  ghost function Hi(b: seq<byte>, t: int, ss: int): int {
    Start(b, 256 * t + ss + 1)
  }

  // What step 1 leaves: rows in place and all small buckets [ss, y], y != ss, sorted.
  ghost predicate Ready(b: seq<byte>, ss: int, done: seq<bool>, s0: seq<int>) {
    && |b| >= 2 && InPlace(b, s0) && 0 <= ss < 256 && |done| == 256 && !done[ss]
    && (forall v :: 256 * ss <= v < 256 * ss + 256 && v != 257 * ss ==> BucketSorted(b, s0, v))
  }

  // The sorted small buckets below and above [ss, ss], in scanning order.
  ghost function First(b: seq<byte>, ss: int, down: bool, s0: seq<int>): (f: seq<int>)
    requires |s0| == |b| && 0 <= ss < 256
  {
    StartMonotone(b, 256 * ss, 257 * ss);
    StartMonotone(b, 257 * ss + 1, 256 * ss + 256);
    if down then s0[Start(b, 256 * ss)..Start(b, 257 * ss)]
    else
      var top, k := Start(b, 256 * ss + 256), Start(b, 256 * ss + 256) - Start(b, 257 * ss + 1);
      seq(k, i requires 0 <= i < k => s0[top - 1 - i])
  }

  // Two rows of big bucket ss outside [ss, ss] are in order.
  lemma RowsInOrder(b: seq<byte>, ss: int, done: seq<bool>, s0: seq<int>, p: int, q: int)
    requires Ready(b, ss, done, s0) && 0 <= p < q < |b|
    requires b[s0[p]] == b[s0[q]] == ss && b[Next(s0[p], |b|)] != ss
    ensures s0[p] != s0[q] && Le(b, s0[p], s0[q])
  {
    var v, w := Pair(b, s0[p]), Pair(b, s0[q]);
    assert InRow(b, s0[p], p) && InRow(b, s0[q], q);
    if v == w {
      assert BucketSorted(b, s0, v);
    } else {
      PairOrder(b, s0, p, q);
    }
  }

  lemma RowOfSide(b: seq<byte>, ss: int, done: seq<bool>, s0: seq<int>, r: int)
    requires Ready(b, ss, done, s0) && 0 <= r < |b|
    ensures Start(b, 256 * ss) <= r < Start(b, 257 * ss) <==> b[s0[r]] == ss && b[Next(s0[r], |b|)] < ss
    ensures Start(b, 257 * ss + 1) <= r < Start(b, 256 * ss + 256) <==> b[s0[r]] == ss && b[Next(s0[r], |b|)] > ss
  {
    assert InRow(b, s0[r], r);
    hide Start;
    RowFrom(b, s0[r], r, 256 * ss);
    RowFrom(b, s0[r], r, 257 * ss);
    RowFrom(b, s0[r], r, 257 * ss + 1);
    RowFrom(b, s0[r], r, 256 * ss + 256);
  }

  lemma FirstRow(b: seq<byte>, ss: int, down: bool, done: seq<bool>, s0: seq<int>, i: int) returns (r: int)
    requires Ready(b, ss, done, s0) && 0 <= i < |First(b, ss, down, s0)|
    ensures 0 <= r < |b| && First(b, ss, down, s0)[i] == s0[r] && 0 <= s0[r] < |b|
    ensures r == if down then Start(b, 256 * ss) + i else Start(b, 256 * ss + 256) - 1 - i
    ensures b[s0[r]] == ss && if down then b[Next(s0[r], |b|)] < ss else b[Next(s0[r], |b|)] > ss
  {
    hide Start, InRow;
    r := if down then Start(b, 256 * ss) + i else Start(b, 256 * ss + 256) - 1 - i;
    StartMonotone(b, 256 * ss, 257 * ss);
    StartMonotone(b, 257 * ss + 1, 256 * ss + 256);
    RowOfSide(b, ss, done, s0, r);
  }

  lemma FirstListing(b: seq<byte>, ss: int, down: bool, done: seq<bool>, s0: seq<int>)
    requires Ready(b, ss, done, s0)
    ensures Listing(b, ss, down, First(b, ss, down, s0))
    ensures forall i :: 0 <= i < |First(b, ss, down, s0)| ==> 0 <= First(b, ss, down, s0)[i] < |b| && b[Next(First(b, ss, down, s0)[i], |b|)] != ss
  {
    var f := First(b, ss, down, s0);
    forall i | 0 <= i < |f| ensures 0 <= f[i] < |b| && b[f[i]] == ss && Typed(b, down, f[i]) && b[Next(f[i], |b|)] != ss {
      var r := FirstRow(b, ss, down, done, s0, i);
      TypeByPair(b, f[i]);
    }
    forall i, j | 0 <= i < j < |f| ensures f[i] != f[j] && Ord(b, down, f[i], f[j]) {
      var p := FirstRow(b, ss, down, done, s0, i);
      var q := FirstRow(b, ss, down, done, s0, j);
      if down {
        RowsInOrder(b, ss, done, s0, p, q);
      } else {
        RowsInOrder(b, ss, done, s0, q, p);
      }
    }
  }

  // Every position of that side is among them.
  lemma FirstComplete(b: seq<byte>, ss: int, down: bool, done: seq<bool>, s0: seq<int>, q: int)
    requires Ready(b, ss, done, s0) && 0 <= q < |b| && b[q] == ss && b[Next(q, |b|)] != ss && Typed(b, down, q)
    ensures q in First(b, ss, down, s0)
  {
    hide Typed, Start, InRow;
    var r := PermHits(s0, |b|, q);
    TypeByPair(b, q);
    RowOfSide(b, ss, done, s0, r);
    RowInFirst(b, ss, down, s0, r);
  }

  lemma RowInFirst(b: seq<byte>, ss: int, down: bool, s0: seq<int>, r: int)
    requires |s0| == |b| && 0 <= ss < 256 && 0 <= r < |b|
    requires if down then Start(b, 256 * ss) <= r < Start(b, 257 * ss) else Start(b, 257 * ss + 1) <= r < Start(b, 256 * ss + 256)
    ensures s0[r] in First(b, ss, down, s0)
  {
    hide Start;
    var f := First(b, ss, down, s0);
    if down {
      assert f[r - Start(b, 256 * ss)] == s0[r];
    } else {
      assert f[Start(b, 256 * ss + 256) - 1 - r] == s0[r];
    }
  }

  // A completed scan has met every position of its type.
  lemma ScanMeets(b: seq<byte>, ss: int, down: bool, done: seq<bool>, s0: seq<int>, xs: seq<int>, p: int)
    requires Ready(b, ss, done, s0) && Scanned(b, ss, down, First(b, ss, down, s0), xs)
    requires 0 <= p < |b| && b[p] == ss && Typed(b, down, p)
    ensures p in xs
  {
    var first := First(b, ss, down, s0);
    forall q | 0 <= q < |b| && b[q] == ss && b[Next(q, |b|)] != ss && Typed(b, down, q) ensures q in first {
      FirstComplete(b, ss, down, done, s0, q);
    }
    ScanComplete(b, ss, down, first, xs, p, |b|);
  }

  // ---- how many rows the two scans write ----

  lemma PredPair(b: seq<byte>, ss: int, down: bool, xs: seq<int>, t: int, i: int)
    requires Listing(b, ss, down, xs) && 0 <= i < |Preds(b, xs, t)|
    ensures 0 <= Preds(b, xs, t)[i] < |b| && Pair(b, Preds(b, xs, t)[i]) == 256 * t + ss && 0 <= t < 256
    ensures Typed(b, down, Next(Preds(b, xs, t)[i], |b|))
  {
    var r := PredsFrom(b, xs, t, i);
    NextPrev(|b|, xs[r]);
  }

  lemma TypesExclude(b: seq<byte>, p: int)
    requires Typed(b, true, p)
    ensures !Typed(b, false, p)
  {
  }

  lemma ListingPlaces(b: seq<byte>, ss: int, down: bool, xs: seq<int>)
    requires Listing(b, ss, down, xs)
    ensures Positions(b, xs)
  {
  }

  // Both scans together pick distinct positions of the pair (t, ss).
  lemma BothPick(b: seq<byte>, ss: int, xl: seq<int>, xr: seq<int>, t: int)
    requires Listing(b, ss, true, xl) && Listing(b, ss, false, xr)
    ensures Picks(Pairs(b), 256 * t + ss, Preds(b, xl, t) + Preds(b, xr, t))
  {
    hide Preds, Listing, Typed, Pair, Positions, Next;
    ListingPlaces(b, ss, true, xl);
    ListingPlaces(b, ss, false, xr);
    var pl, pr := Preds(b, xl, t), Preds(b, xr, t);
    var list := pl + pr;
    PredsRanked(b, ss, true, xl, t);
    PredsRanked(b, ss, false, xr, t);
    forall i | 0 <= i < |list| ensures 0 <= list[i] < |b| && Pair(b, list[i]) == 256 * t + ss && Typed(b, i < |pl|, Next(list[i], |b|)) {
      if i < |pl| {
        PredPair(b, ss, true, xl, t, i);
      } else {
        PredPair(b, ss, false, xr, t, i - |pl|);
      }
    }
    forall i, j | 0 <= i < j < |list| ensures list[i] != list[j] {
      if i < |pl| && j >= |pl| {
        TypesExclude(b, Next(list[i], |b|));
      }
    }
  }

  lemma BothFit(b: seq<byte>, ss: int, xl: seq<int>, xr: seq<int>, t: int)
    requires Listing(b, ss, true, xl) && Listing(b, ss, false, xr)
    ensures |Preds(b, xl, t)| + |Preds(b, xr, t)| <= Hi(b, t, ss) - Lo(b, t, ss)
  {
    BothPick(b, ss, xl, xr, t);
    Members(Pairs(b), 256 * t + ss, Preds(b, xl, t) + Preds(b, xr, t));
    BucketSize(b, 256 * t + ss);
  }

  // Unless the block is one repeated symbol, the two scans meet exactly.
  lemma BothFill(b: seq<byte>, ss: int, done: seq<bool>, s0: seq<int>, xl: seq<int>, xr: seq<int>, t: int)
    requires Ready(b, ss, done, s0) && !AllSame(b)
    requires Scanned(b, ss, true, First(b, ss, true, s0), xl) && Scanned(b, ss, false, First(b, ss, false, s0), xr)
    requires Listing(b, ss, true, xl) && Listing(b, ss, false, xr)
    ensures |Preds(b, xl, t)| + |Preds(b, xr, t)| == Hi(b, t, ss) - Lo(b, t, ss)
  {
    hide Ready, Scanned, Typed, Ranked, AllSame, Preds, Lo, Hi, Start, Picks, PicksAll, First;
    var keys, v, list := Pairs(b), 256 * t + ss, Preds(b, xl, t) + Preds(b, xr, t);
    BothPick(b, ss, xl, xr, t);
    BothAll(b, ss, done, s0, xl, xr, t);
    hide *;
    Members(keys, v, list);
    BucketSize(b, v);
    HiLo(b, t, ss);
  }

  lemma HiLo(b: seq<byte>, t: int, ss: int)
    ensures Lo(b, t, ss) == Start(b, 256 * t + ss) && Hi(b, t, ss) == Start(b, 256 * t + ss + 1)
  {
  }

  lemma BothAll(b: seq<byte>, ss: int, done: seq<bool>, s0: seq<int>, xl: seq<int>, xr: seq<int>, t: int)
    requires Ready(b, ss, done, s0) && !AllSame(b) && Positions(b, xl) && Positions(b, xr)
    requires Scanned(b, ss, true, First(b, ss, true, s0), xl) && Scanned(b, ss, false, First(b, ss, false, s0), xr)
    ensures PicksAll(Pairs(b), 256 * t + ss, Preds(b, xl, t) + Preds(b, xr, t))
  {
    hide Ready, AllSame, Scanned, First, Preds, Pair, Positions;
    var keys, list := Pairs(b), Preds(b, xl, t) + Preds(b, xr, t);
    forall k | 0 <= k < |keys| && keys[k] == 256 * t + ss ensures k in list {
      OneMeets(b, ss, done, s0, xl, xr, t, k);
    }
  }

  lemma PairSplit(b: seq<byte>, k: int, t: int, ss: int)
    requires 0 <= k < |b| && 0 <= ss < 256 && Pair(b, k) == 256 * t + ss
    ensures b[k] == t && b[Next(k, |b|)] == ss
  {
  }

  lemma OneMeets(b: seq<byte>, ss: int, done: seq<bool>, s0: seq<int>, xl: seq<int>, xr: seq<int>, t: int, k: int)
    requires Ready(b, ss, done, s0) && !AllSame(b) && Positions(b, xl) && Positions(b, xr)
    requires Scanned(b, ss, true, First(b, ss, true, s0), xl) && Scanned(b, ss, false, First(b, ss, false, s0), xr)
    requires 0 <= k < |b| && Pair(b, k) == 256 * t + ss
    ensures k in Preds(b, xl, t) || k in Preds(b, xr, t)
  {
    var n := |b|;
    var p := Next(k, n);
    NextPrev(n, k);
    assert 0 <= ss < 256;
    PairSplit(b, k, t, ss);
    hide *;
    if Typed(b, true, p) {
      ScanMeets(b, ss, true, done, s0, xl, p);
      var r :| 0 <= r < |xl| && xl[r] == p;
      var i := PredsHit(b, xl, t, r);
    } else {
      if !Typed(b, false, p) {
        UntypedAllSame(b, p);
      }
      ScanMeets(b, ss, false, done, s0, xr, p);
      var r :| 0 <= r < |xr| && xr[r] == p;
      var i := PredsHit(b, xr, t, r);
    }
  }

  // ---- the state of the scans ----

  // Bucket [t, ss] between its two cursors: written from below by the upward scan, from
  // above by the downward scan.
  ghost predicate Slots(b: seq<byte>, ss: int, s: seq<int>, xl: seq<int>, xr: seq<int>, t: int, c: int, e: int) {
    && |s| == |b| && Positions(b, xl) && Positions(b, xr)
    && Between(s, Lo(b, t, ss), Hi(b, t, ss), Preds(b, xl, t), Preds(b, xr, t), c, e)
  }

  // Rows lo.. hold pl from the bottom and pr from the top; c..e are still free.
  ghost predicate Between(s: seq<int>, lo: int, hi: int, pl: seq<int>, pr: seq<int>, c: int, e: int) {
    && 0 <= lo <= hi <= |s| && c == lo + |pl| && e == hi - 1 - |pr| && c <= e + 1
    && (forall i :: 0 <= i < |pl| ==> s[lo + i] == pl[i])
    && (forall i :: 0 <= i < |pr| ==> s[hi - 1 - i] == pr[i])
  }

  lemma BetweenElsewhere(s: seq<int>, lo: int, hi: int, pl: seq<int>, pr: seq<int>, c: int, e: int, row: int, k: int)
    requires Between(s, lo, hi, pl, pr, c, e) && 0 <= row < |s| && !(lo <= row < hi)
    ensures Between(s[row := k], lo, hi, pl, pr, c, e)
  {
  }

  lemma BetweenGrows(s: seq<int>, lo: int, hi: int, pl: seq<int>, pr: seq<int>, c: int, e: int, k: int)
    requires Between(s, lo, hi, pl, pr, c, e) && c <= e
    ensures Between(s[c := k], lo, hi, pl + [k], pr, c + 1, e)
    ensures Between(s[e := k], lo, hi, pl, pr + [k], c, e - 1)
  {
  }

  // Row r is not one that a scan has written.
  ghost predicate Unwritten(b: seq<byte>, ss: int, done: seq<bool>, s0: seq<int>, cs: seq<int>, ce: seq<int>, r: int)
    requires 0 <= r < |s0| && 0 <= s0[r] < |b| && |done| == |cs| == |ce| == 256
  {
    var t, y := b[s0[r]], b[Next(s0[r], |b|)];
    y != ss || done[t] || cs[t] <= r <= ce[t]
  }

  ghost predicate Written(b: seq<byte>, ss: int, done: seq<bool>, s0: seq<int>, s: seq<int>, cs: seq<int>, ce: seq<int>, xl: seq<int>, xr: seq<int>) {
    && |s| == |s0| == |b| && |done| == |cs| == |ce| == 256 && 0 <= ss < 256 && InPlace(b, s0)
    && Positions(b, xl) && Positions(b, xr)
    && (forall t {:trigger cs[t]} {:trigger ce[t]} :: 0 <= t < 256 && !done[t] ==> Slots(b, ss, s, xl, xr, t, cs[t], ce[t]))
    && (forall r {:trigger s[r]} :: 0 <= r < |b| && Unwritten(b, ss, done, s0, cs, ce, r) ==> s[r] == s0[r])
  }

  lemma LoHiApart(b: seq<byte>, ss: int, t: int, u: int, r: int)
    requires 0 <= ss < 256 && t != u && Lo(b, t, ss) <= r < Hi(b, t, ss)
    ensures !(Lo(b, u, ss) <= r < Hi(b, u, ss))
  {
    if t < u {
      StartMonotone(b, 256 * t + ss + 1, 256 * u + ss);
    } else {
      StartMonotone(b, 256 * u + ss + 1, 256 * t + ss);
    }
  }

  // A write to a row of bucket [c1, ss] leaves the other buckets' slots alone.
  lemma SlotsElsewhere(b: seq<byte>, ss: int, s: seq<int>, xl: seq<int>, xr: seq<int>, t: int, c: int, e: int, c1: int, row: int, k: int,
                       yl: seq<int>, yr: seq<int>)
    requires Slots(b, ss, s, xl, xr, t, c, e) && t != c1 && 0 <= ss < 256 && Lo(b, c1, ss) <= row < Hi(b, c1, ss) <= |b| && 0 <= row
    requires Positions(b, yl) && Positions(b, yr) && Preds(b, yl, t) == Preds(b, xl, t) && Preds(b, yr, t) == Preds(b, xr, t)
    ensures Slots(b, ss, s[row := k], yl, yr, t, c, e)
  {
    hide Lo, Hi, Preds, Between, Positions;
    LoHiApart(b, ss, c1, t, row);
    BetweenElsewhere(s, Lo(b, t, ss), Hi(b, t, ss), Preds(b, xl, t), Preds(b, xr, t), c, e, row, k);
  }

  lemma BoundsLoHi(b: seq<byte>, ss: int, t: int)
    requires 0 <= ss < 256
    ensures 0 <= Lo(b, t, ss) <= Hi(b, t, ss) <= |b|
  {
    StartMonotone(b, 256 * t + ss, 256 * t + ss + 1);
  }

  // The row about to be written; the capacity is that of the scans one step further on.
  lemma NextRow(b: seq<byte>, ss: int, done: seq<bool>, s0: seq<int>, s: seq<int>, cs: seq<int>, ce: seq<int>, xl: seq<int>, xr: seq<int>, t: int,
                yl: seq<int>, yr: seq<int>)
    requires Written(b, ss, done, s0, s, cs, ce, xl, xr) && 0 <= t < 256 && !done[t]
    requires Positions(b, yl) && Positions(b, yr) && |Preds(b, yl, t)| + |Preds(b, yr, t)| <= Hi(b, t, ss) - Lo(b, t, ss)
    requires (yr == xr && exists x :: StepOf(b, xl, x, yl) && b[Prev(x, |b|)] == t)
          || (yl == xl && exists x :: StepOf(b, xr, x, yr) && b[Prev(x, |b|)] == t)
    ensures 0 <= Lo(b, t, ss) <= cs[t] <= ce[t] < Hi(b, t, ss) <= |b|
  {
    assert Slots(b, ss, s, xl, xr, t, cs[t], ce[t]);
    hide InPlace, Preds, Lo, Hi, Unwritten;
    BoundsLoHi(b, ss, t);
    if yr == xr && exists x :: StepOf(b, xl, x, yl) && b[Prev(x, |b|)] == t {
      var x :| StepOf(b, xl, x, yl) && b[Prev(x, |b|)] == t;
      PredsStep(b, xl, x, t);
    } else {
      var x :| StepOf(b, xr, x, yr) && b[Prev(x, |b|)] == t;
      PredsStep(b, xr, x, t);
    }
  }

  lemma PlaceRange(b: seq<byte>, s0: seq<int>)
    requires InPlace(b, s0)
    ensures |s0| == |b| && forall r :: 0 <= r < |b| ==> 0 <= s0[r] < |b|
  {
  }

  ghost predicate StepOf(b: seq<byte>, xl: seq<int>, x: int, yl: seq<int>) {
    Positions(b, xl) && 0 <= x < |b| && yl == xl + [x]
  }

  // One position scanned upwards.
  lemma WriteUp(b: seq<byte>, ss: int, done: seq<bool>, s0: seq<int>, s: seq<int>, cs: seq<int>, ce: seq<int>, xl: seq<int>, xr: seq<int>,
                x: int, c1: byte, s': seq<int>, cs': seq<int>, yl: seq<int>)
    requires Written(b, ss, done, s0, s, cs, ce, xl, xr) && StepOf(b, xl, x, yl) && c1 == b[Prev(x, |b|)] && b[x] == ss
    requires Positions(b, yl) && Positions(b, xr) && |Preds(b, yl, c1)| + |Preds(b, xr, c1)| <= Hi(b, c1, ss) - Lo(b, c1, ss)
    requires !done[c1] ==> 0 <= cs[c1] < |s|
    requires if done[c1] then s' == s && cs' == cs else s' == s[cs[c1] := Prev(x, |b|)] && cs' == cs[c1 := cs[c1] + 1]
    ensures Written(b, ss, done, s0, s', cs', ce, yl, xr)
  {
    hide Slots, InPlace, Preds, Lo, Hi, Between, Positions, StepOf;
    PlaceRange(b, s0);
    forall t {:trigger cs'[t]} {:trigger ce[t]} | 0 <= t < 256 && !done[t] ensures Slots(b, ss, s', yl, xr, t, cs'[t], ce[t]) {
      SlotsAfterUp(b, ss, done, s0, s, cs, ce, xl, xr, x, c1, s', cs', yl, t);
    }
    if !done[c1] {
      NextRow(b, ss, done, s0, s, cs, ce, xl, xr, c1, yl, xr);
      RowInBucket(b, ss, s0, c1, cs[c1]);
    }
  }

  lemma SlotsAfterUp(b: seq<byte>, ss: int, done: seq<bool>, s0: seq<int>, s: seq<int>, cs: seq<int>, ce: seq<int>, xl: seq<int>, xr: seq<int>,
                     x: int, c1: byte, s': seq<int>, cs': seq<int>, yl: seq<int>, t: int)
    requires Written(b, ss, done, s0, s, cs, ce, xl, xr) && StepOf(b, xl, x, yl) && c1 == b[Prev(x, |b|)] && b[x] == ss
    requires Positions(b, yl) && Positions(b, xr) && |Preds(b, yl, c1)| + |Preds(b, xr, c1)| <= Hi(b, c1, ss) - Lo(b, c1, ss)
    requires !done[c1] ==> 0 <= cs[c1] < |s|
    requires if done[c1] then s' == s && cs' == cs else s' == s[cs[c1] := Prev(x, |b|)] && cs' == cs[c1 := cs[c1] + 1]
    requires 0 <= t < 256 && !done[t]
    ensures Slots(b, ss, s', yl, xr, t, cs'[t], ce[t])
  {
    hide InPlace, Preds, Lo, Hi, Between, Slots, Unwritten;
    var k := Prev(x, |b|);
    assert Slots(b, ss, s, xl, xr, t, cs[t], ce[t]);
    PredsStep(b, xl, x, t);
    PredsStep(b, xl, x, c1);
    if t == c1 {
      SlotsUp(b, ss, s, xl, xr, t, cs[t], ce[t], k, yl);
    } else if !done[c1] {
      NextRow(b, ss, done, s0, s, cs, ce, xl, xr, c1, yl, xr);
      SlotsElsewhere(b, ss, s, xl, xr, t, cs[t], ce[t], c1, cs[c1], k, yl, xr);
    } else {
      SlotsKept(b, ss, s, xl, xr, t, cs[t], ce[t], yl, xr);
    }
  }

  lemma SlotsKept(b: seq<byte>, ss: int, s: seq<int>, xl: seq<int>, xr: seq<int>, t: int, c: int, e: int, yl: seq<int>, yr: seq<int>)
    requires Slots(b, ss, s, xl, xr, t, c, e) && Positions(b, yl) && Positions(b, yr)
    requires Preds(b, yl, t) == Preds(b, xl, t) && Preds(b, yr, t) == Preds(b, xr, t)
    ensures Slots(b, ss, s, yl, yr, t, c, e)
  {
  }

  lemma RowInBucket(b: seq<byte>, ss: int, s0: seq<int>, t: int, r: int)
    requires InPlace(b, s0) && 0 <= r < |b| && Lo(b, t, ss) <= r < Hi(b, t, ss) && 0 <= ss < 256
    ensures 0 <= s0[r] < |b| && b[s0[r]] == t && b[Next(s0[r], |b|)] == ss
  {
    assert InRow(b, s0[r], r);
    RowPair(b, s0[r], r, 256 * t + ss);
    PairSplit(b, s0[r], t, ss);
  }

  lemma SlotsUp(b: seq<byte>, ss: int, s: seq<int>, xl: seq<int>, xr: seq<int>, t: int, c: int, e: int, k: int, yl: seq<int>)
    requires Slots(b, ss, s, xl, xr, t, c, e) && Positions(b, yl) && Preds(b, yl, t) == Preds(b, xl, t) + [k]
    requires |Preds(b, yl, t)| + |Preds(b, xr, t)| <= Hi(b, t, ss) - Lo(b, t, ss) && 0 <= c < |s|
    requires 0 <= ss < 256
    ensures Slots(b, ss, s[c := k], yl, xr, t, c + 1, e)
  {
    hide Preds, Lo, Hi;
    BetweenGrows(s, Lo(b, t, ss), Hi(b, t, ss), Preds(b, xl, t), Preds(b, xr, t), c, e, k);
  }

  // One position scanned downwards.
  lemma WriteDown(b: seq<byte>, ss: int, done: seq<bool>, s0: seq<int>, s: seq<int>, cs: seq<int>, ce: seq<int>, xl: seq<int>, xr: seq<int>,
                  x: int, c1: byte, s': seq<int>, ce': seq<int>, yr: seq<int>)
    requires Written(b, ss, done, s0, s, cs, ce, xl, xr) && StepOf(b, xr, x, yr) && c1 == b[Prev(x, |b|)] && b[x] == ss
    requires Positions(b, yr) && Positions(b, xl) && |Preds(b, xl, c1)| + |Preds(b, yr, c1)| <= Hi(b, c1, ss) - Lo(b, c1, ss)
    requires !done[c1] ==> 0 <= ce[c1] < |s|
    requires if done[c1] then s' == s && ce' == ce else s' == s[ce[c1] := Prev(x, |b|)] && ce' == ce[c1 := ce[c1] - 1]
    ensures Written(b, ss, done, s0, s', cs, ce', xl, yr)
  {
    hide Slots, InPlace, Preds, Lo, Hi, Between, Positions, StepOf;
    PlaceRange(b, s0);
    forall t {:trigger cs[t]} {:trigger ce'[t]} | 0 <= t < 256 && !done[t] ensures Slots(b, ss, s', xl, yr, t, cs[t], ce'[t]) {
      SlotsAfterDown(b, ss, done, s0, s, cs, ce, xl, xr, x, c1, s', ce', yr, t);
    }
    if !done[c1] {
      NextRow(b, ss, done, s0, s, cs, ce, xl, xr, c1, xl, yr);
      RowInBucket(b, ss, s0, c1, ce[c1]);
    }
  }

  lemma SlotsAfterDown(b: seq<byte>, ss: int, done: seq<bool>, s0: seq<int>, s: seq<int>, cs: seq<int>, ce: seq<int>, xl: seq<int>, xr: seq<int>,
                       x: int, c1: byte, s': seq<int>, ce': seq<int>, yr: seq<int>, t: int)
    requires Written(b, ss, done, s0, s, cs, ce, xl, xr) && StepOf(b, xr, x, yr) && c1 == b[Prev(x, |b|)] && b[x] == ss
    requires Positions(b, yr) && Positions(b, xl) && |Preds(b, xl, c1)| + |Preds(b, yr, c1)| <= Hi(b, c1, ss) - Lo(b, c1, ss)
    requires !done[c1] ==> 0 <= ce[c1] < |s|
    requires if done[c1] then s' == s && ce' == ce else s' == s[ce[c1] := Prev(x, |b|)] && ce' == ce[c1 := ce[c1] - 1]
    requires 0 <= t < 256 && !done[t]
    ensures Slots(b, ss, s', xl, yr, t, cs[t], ce'[t])
  {
    hide InPlace, Preds, Lo, Hi, Between, Slots, Unwritten;
    var k := Prev(x, |b|);
    assert Slots(b, ss, s, xl, xr, t, cs[t], ce[t]);
    PredsStep(b, xr, x, t);
    PredsStep(b, xr, x, c1);
    if t == c1 {
      SlotsDown(b, ss, s, xl, xr, t, cs[t], ce[t], k, yr);
    } else if !done[c1] {
      NextRow(b, ss, done, s0, s, cs, ce, xl, xr, c1, xl, yr);
      SlotsElsewhere(b, ss, s, xl, xr, t, cs[t], ce[t], c1, ce[c1], k, xl, yr);
    } else {
      SlotsKept(b, ss, s, xl, xr, t, cs[t], ce[t], xl, yr);
    }
  }

  lemma SlotsDown(b: seq<byte>, ss: int, s: seq<int>, xl: seq<int>, xr: seq<int>, t: int, c: int, e: int, k: int, yr: seq<int>)
    requires Slots(b, ss, s, xl, xr, t, c, e) && Positions(b, yr) && Preds(b, yr, t) == Preds(b, xr, t) + [k]
    requires |Preds(b, xl, t)| + |Preds(b, yr, t)| <= Hi(b, t, ss) - Lo(b, t, ss) && 0 <= e < |s|
    requires 0 <= ss < 256
    ensures Slots(b, ss, s[e := k], xl, yr, t, c, e - 1)
  {
    hide Preds, Lo, Hi;
    BetweenGrows(s, Lo(b, t, ss), Hi(b, t, ss), Preds(b, xl, t), Preds(b, xr, t), c, e, k);
  }

  // ---- the two loops ----

  ghost predicate Scanning(b: seq<byte>, ss: int, done: seq<bool>, s0: seq<int>, s: seq<int>, cs: seq<int>, ce: seq<int>, xl: seq<int>, xr: seq<int>) {
    && Ready(b, ss, done, s0) && Written(b, ss, done, s0, s, cs, ce, xl, xr)
    && Chain(b, ss, true, First(b, ss, true, s0), xl) && Chain(b, ss, false, First(b, ss, false, s0), xr)
  }

  lemma ScanningStart(b: seq<byte>, ss: int, done: seq<bool>, s0: seq<int>, cs: seq<int>, ce: seq<int>)
    requires Ready(b, ss, done, s0) && |cs| == |ce| == 256
    requires forall t :: 0 <= t < 256 ==> cs[t] == Lo(b, t, ss) && ce[t] == Hi(b, t, ss) - 1
    ensures Scanning(b, ss, done, s0, s0, cs, ce, [], [])
  {
    FirstListing(b, ss, true, done, s0);
    FirstListing(b, ss, false, done, s0);
    hide Listing, First, Lo, Hi;
    ChainStart(b, ss, true, First(b, ss, true, s0));
    ChainStart(b, ss, false, First(b, ss, false, s0));
    forall t {:trigger cs[t]} {:trigger ce[t]} | 0 <= t < 256 && !done[t] ensures Slots(b, ss, s0, [], [], t, cs[t], ce[t]) {
      BoundsLoHi(b, ss, t);
    }
    hide Chain;
  }

  // Listing a prefix.
  lemma ChainListed(b: seq<byte>, ss: int, down: bool, first: seq<int>, xs: seq<int>)
    requires Chain(b, ss, down, first, xs)
    ensures Listing(b, ss, down, xs)
  {
    hide Typed, Ord, Preds;
    var w := first + Preds(b, xs, ss);
    assert forall i :: 0 <= i < |xs| ==> xs[i] == w[i];
  }

  lemma FirstSize(b: seq<byte>, ss: int, s0: seq<int>)
    requires |s0| == |b| && 0 <= ss < 256
    ensures |First(b, ss, true, s0)| == Lo(b, ss, ss) - Start(b, 256 * ss) >= 0
    ensures |First(b, ss, false, s0)| == Start(b, 256 * ss + 256) - Hi(b, ss, ss) >= 0
  {
    hide Start;
    StartMonotone(b, 256 * ss, 257 * ss);
    StartMonotone(b, 257 * ss + 1, 256 * ss + 256);
  }

  lemma FirstAt(b: seq<byte>, ss: int, s0: seq<int>, i: int)
    requires |s0| == |b| && 0 <= ss < 256 && 0 <= i
    ensures i < |First(b, ss, true, s0)| ==> 0 <= Start(b, 256 * ss) + i < |b| && First(b, ss, true, s0)[i] == s0[Start(b, 256 * ss) + i]
    ensures i < |First(b, ss, false, s0)| ==>
              0 <= Start(b, 256 * ss + 256) - 1 - i < |b| && First(b, ss, false, s0)[i] == s0[Start(b, 256 * ss + 256) - 1 - i]
  {
    hide Start, First;
    if i < |First(b, ss, true, s0)| {
      FirstUpAt(b, ss, s0, i);
    }
    if i < |First(b, ss, false, s0)| {
      FirstDownAt(b, ss, s0, i);
    }
  }

  lemma FirstUpAt(b: seq<byte>, ss: int, s0: seq<int>, i: int)
    requires |s0| == |b| && 0 <= ss < 256 && 0 <= i < |First(b, ss, true, s0)|
    ensures 0 <= Start(b, 256 * ss) + i < |b| && First(b, ss, true, s0)[i] == s0[Start(b, 256 * ss) + i]
  {
    hide Start;
    StartMonotone(b, 256 * ss, 257 * ss);
  }

  lemma FirstDownAt(b: seq<byte>, ss: int, s0: seq<int>, i: int)
    requires |s0| == |b| && 0 <= ss < 256 && 0 <= i < |First(b, ss, false, s0)|
    ensures 0 <= Start(b, 256 * ss + 256) - 1 - i < |b| && First(b, ss, false, s0)[i] == s0[Start(b, 256 * ss + 256) - 1 - i]
  {
    hide Start;
    StartMonotone(b, 257 * ss + 1, 256 * ss + 256);
  }

  // A row outside [ss, ss] of the big bucket is as step 1 left it.
  lemma SideRowKept(b: seq<byte>, ss: int, done: seq<bool>, s0: seq<int>, s: seq<int>, cs: seq<int>, ce: seq<int>, xl: seq<int>, xr: seq<int>, j: int)
    requires Ready(b, ss, done, s0) && Written(b, ss, done, s0, s, cs, ce, xl, xr) && 0 <= j < |b|
    requires Start(b, 256 * ss) <= j < Start(b, 257 * ss) || Start(b, 257 * ss + 1) <= j < Start(b, 256 * ss + 256)
    ensures s[j] == s0[j]
  {
    hide Start, InRow, Slots;
    RowOfSide(b, ss, done, s0, j);
    PlaceRange(b, s0);
    assert Unwritten(b, ss, done, s0, cs, ce, j);
  }

  lemma SlotsOf(b: seq<byte>, ss: int, done: seq<bool>, s0: seq<int>, s: seq<int>, cs: seq<int>, ce: seq<int>, xl: seq<int>, xr: seq<int>, t: int)
    requires Written(b, ss, done, s0, s, cs, ce, xl, xr) && 0 <= t < 256 && !done[t]
    ensures Positions(b, xl) && Positions(b, xr)
    ensures Between(s, Lo(b, t, ss), Hi(b, t, ss), Preds(b, xl, t), Preds(b, xr, t), cs[t], ce[t])
  {
    assert Slots(b, ss, s, xl, xr, t, cs[t], ce[t]);
  }

  lemma ReadAt(first: seq<int>, ps: seq<int>, i: int)
    requires 0 <= i < |first| + |ps|
    ensures (first + ps)[i] == if i < |first| then first[i] else ps[i - |first|]
  {
  }

  // The row read by the upward scan holds the next position of its list.
  lemma ReadUp(b: seq<byte>, ss: int, done: seq<bool>, s0: seq<int>, s: seq<int>, cs: seq<int>, ce: seq<int>, xl: seq<int>, xr: seq<int>, j: int)
    requires Scanning(b, ss, done, s0, s, cs, ce, xl, xr) && j == Start(b, 256 * ss) + |xl| < cs[ss]
    ensures 0 <= j < |b| && |xl| < |First(b, ss, true, s0)| + |Preds(b, xl, ss)|
    ensures s[j] == (First(b, ss, true, s0) + Preds(b, xl, ss))[|xl|]
  {
    hide Scanning, Preds, Chain, Start, Lo, Hi, First, Ready, Written, Positions, Unwritten, Slots, Listing, InPlace;
    ScanningFacts(b, ss, done, s0, s, cs, ce, xl, xr);
    var first, ps, i := First(b, ss, true, s0), Preds(b, xl, ss), |xl|;
    SlotsOf(b, ss, done, s0, s, cs, ce, xl, xr, ss);
    FirstSize(b, ss, s0);
    HiLoSame(b, ss);
    ReadAt(first, ps, i);
    if i < |first| {
      FirstAt(b, ss, s0, i);
      SideRowKept(b, ss, done, s0, s, cs, ce, xl, xr, j);
    } else {
      assert j == Lo(b, ss, ss) + (i - |first|);
    }
  }

  lemma HiLoSame(b: seq<byte>, ss: int)
    ensures Lo(b, ss, ss) == Start(b, 257 * ss) && Hi(b, ss, ss) == Start(b, 257 * ss + 1)
  {
  }

  lemma ScanningFacts(b: seq<byte>, ss: int, done: seq<bool>, s0: seq<int>, s: seq<int>, cs: seq<int>, ce: seq<int>, xl: seq<int>, xr: seq<int>)
    requires Scanning(b, ss, done, s0, s, cs, ce, xl, xr)
    ensures 0 <= ss < 256 && |done| == |cs| == |ce| == 256 && !done[ss] && |s0| == |s| == |b| && Positions(b, xl) && Positions(b, xr)
    ensures Ready(b, ss, done, s0) && Written(b, ss, done, s0, s, cs, ce, xl, xr)
    ensures Chain(b, ss, true, First(b, ss, true, s0), xl) && Chain(b, ss, false, First(b, ss, false, s0), xr)
  {
    hide Chain, First;
  }

  lemma ReadDown(b: seq<byte>, ss: int, done: seq<bool>, s0: seq<int>, s: seq<int>, cs: seq<int>, ce: seq<int>, xl: seq<int>, xr: seq<int>, j: int)
    requires Scanning(b, ss, done, s0, s, cs, ce, xl, xr) && j == Start(b, 256 * ss + 256) - 1 - |xr| > ce[ss]
    ensures 0 <= j < |b| && |xr| < |First(b, ss, false, s0)| + |Preds(b, xr, ss)|
    ensures s[j] == (First(b, ss, false, s0) + Preds(b, xr, ss))[|xr|]
  {
    hide Scanning, Preds, Chain, Start, Lo, Hi, First, Ready, Written, Positions, Unwritten, Slots, Listing, InPlace;
    ScanningFacts(b, ss, done, s0, s, cs, ce, xl, xr);
    var first, ps, i := First(b, ss, false, s0), Preds(b, xr, ss), |xr|;
    SlotsOf(b, ss, done, s0, s, cs, ce, xl, xr, ss);
    FirstSize(b, ss, s0);
    HiLoSame(b, ss);
    ReadAt(first, ps, i);
    if i < |first| {
      FirstAt(b, ss, s0, i);
      SideRowKept(b, ss, done, s0, s, cs, ce, xl, xr, j);
    } else {
      assert j == Hi(b, ss, ss) - 1 - (i - |first|);
    }
  }

  lemma ChainNext(b: seq<byte>, ss: int, down: bool, first: seq<int>, xs: seq<int>, x: int)
    requires Chain(b, ss, down, first, xs) && |xs| < |first| + |Preds(b, xs, ss)| && x == (first + Preds(b, xs, ss))[|xs|]
    ensures 0 <= x < |b| && b[x] == ss && StepOf(b, xs, x, xs + [x]) && Positions(b, xs + [x])
    ensures Chain(b, ss, down, first, xs + [x]) && Listing(b, ss, down, xs + [x])
  {
    ChainStep(b, ss, down, first, xs, x);
    ChainListed(b, ss, down, first, xs + [x]);
    assert b[(first + Preds(b, xs, ss))[|xs|]] == ss;
  }

  // Scanning row j upwards.
  lemma StepUp(b: seq<byte>, ss: int, done: seq<bool>, s0: seq<int>, s: seq<int>, cs: seq<int>, ce: seq<int>, xl: seq<int>, xr: seq<int>,
               j: int, x: int, c1: int, s': seq<int>, cs': seq<int>)
    requires Scanning(b, ss, done, s0, s, cs, ce, xl, xr) && j == Start(b, 256 * ss) + |xl| < cs[ss] && 0 <= j < |s| && x == s[j]
    requires 0 <= x < |b| ==> c1 == b[Prev(x, |b|)]
    ensures 0 <= x < |b| && 0 <= c1 < 256 && (!done[c1] ==> 0 <= cs[c1] < |s|)
    ensures (if done[c1] then s' == s && cs' == cs else s' == s[cs[c1] := Prev(x, |b|)] && cs' == cs[c1 := cs[c1] + 1])
              ==> Scanning(b, ss, done, s0, s', cs', ce, xl + [x], xr)
  {
    hide Scanning, Preds, Chain, Start, Lo, Hi, First, Ready, Written, Positions, Listing, StepOf, InPlace;
    ScanningFacts(b, ss, done, s0, s, cs, ce, xl, xr);
    ReadUp(b, ss, done, s0, s, cs, ce, xl, xr, j);
    var first, yl := First(b, ss, true, s0), xl + [x];
    ChainNext(b, ss, true, first, xl, x);
    ChainListed(b, ss, false, First(b, ss, false, s0), xr);
    BothFit(b, ss, yl, xr, c1);
    if !done[c1] {
      NextRow(b, ss, done, s0, s, cs, ce, xl, xr, c1, yl, xr);
    }
    if if done[c1] then s' == s && cs' == cs else s' == s[cs[c1] := Prev(x, |b|)] && cs' == cs[c1 := cs[c1] + 1] {
      WriteUp(b, ss, done, s0, s, cs, ce, xl, xr, x, c1, s', cs', yl);
      ScanningFrom(b, ss, done, s0, s', cs', ce, yl, xr);
    }
  }

  lemma ScanningFrom(b: seq<byte>, ss: int, done: seq<bool>, s0: seq<int>, s: seq<int>, cs: seq<int>, ce: seq<int>, xl: seq<int>, xr: seq<int>)
    requires Ready(b, ss, done, s0) && Written(b, ss, done, s0, s, cs, ce, xl, xr)
    requires Chain(b, ss, true, First(b, ss, true, s0), xl) && Chain(b, ss, false, First(b, ss, false, s0), xr)
    ensures Scanning(b, ss, done, s0, s, cs, ce, xl, xr)
  {
  }

  // Scanning row j downwards.
  lemma StepDown(b: seq<byte>, ss: int, done: seq<bool>, s0: seq<int>, s: seq<int>, cs: seq<int>, ce: seq<int>, xl: seq<int>, xr: seq<int>,
                 j: int, x: int, c1: int, s': seq<int>, ce': seq<int>)
    requires Scanning(b, ss, done, s0, s, cs, ce, xl, xr) && j == Start(b, 256 * ss + 256) - 1 - |xr| > ce[ss] && 0 <= j < |s| && x == s[j]
    requires 0 <= x < |b| ==> c1 == b[Prev(x, |b|)]
    ensures 0 <= x < |b| && 0 <= c1 < 256 && (!done[c1] ==> 0 <= ce[c1] < |s|)
    ensures (if done[c1] then s' == s && ce' == ce else s' == s[ce[c1] := Prev(x, |b|)] && ce' == ce[c1 := ce[c1] - 1])
              ==> Scanning(b, ss, done, s0, s', cs, ce', xl, xr + [x])
  {
    hide Scanning, Preds, Chain, Start, Lo, Hi, First, Ready, Written, Positions, Listing, StepOf, InPlace;
    ScanningFacts(b, ss, done, s0, s, cs, ce, xl, xr);
    ReadDown(b, ss, done, s0, s, cs, ce, xl, xr, j);
    var first, yr := First(b, ss, false, s0), xr + [x];
    ChainNext(b, ss, false, first, xr, x);
    ChainListed(b, ss, true, First(b, ss, true, s0), xl);
    BothFit(b, ss, xl, yr, c1);
    if !done[c1] {
      NextRow(b, ss, done, s0, s, cs, ce, xl, xr, c1, xl, yr);
    }
    if if done[c1] then s' == s && ce' == ce else s' == s[ce[c1] := Prev(x, |b|)] && ce' == ce[c1 := ce[c1] - 1] {
      WriteDown(b, ss, done, s0, s, cs, ce, xl, xr, x, c1, s', ce', yr);
      ScanningFrom(b, ss, done, s0, s', cs, ce', xl, yr);
    }
  }

  // Where the loops may read, and when they have seen everything.
  lemma ScanBoundsUp(b: seq<byte>, ss: int, done: seq<bool>, s0: seq<int>, s: seq<int>, cs: seq<int>, ce: seq<int>, xl: seq<int>, xr: seq<int>)
    requires Scanning(b, ss, done, s0, s, cs, ce, xl, xr)
    ensures |cs| == |done| == 256 && 0 <= ss < 256 && |s| == |b|
    ensures Start(b, 256 * ss) + |xl| < cs[ss] ==> 0 <= Start(b, 256 * ss) + |xl| < |b| && 0 <= s[Start(b, 256 * ss) + |xl|] < |b|
    ensures Start(b, 256 * ss) + |xl| >= cs[ss] ==> |s0| == |b| && Scanned(b, ss, true, First(b, ss, true, s0), xl)
  {
    hide Scanning, Preds, Start, Lo, Hi, First, Ready, Written, Positions, Listing, StepOf, InPlace, Chain;
    ScanningFacts(b, ss, done, s0, s, cs, ce, xl, xr);
    var first, j := First(b, ss, true, s0), Start(b, 256 * ss) + |xl|;
    if j < cs[ss] {
      ReadUp(b, ss, done, s0, s, cs, ce, xl, xr, j);
      ChainNext(b, ss, true, first, xl, s[j]);
    } else {
      SlotsOf(b, ss, done, s0, s, cs, ce, xl, xr, ss);
      FirstSize(b, ss, s0);
      ChainWhole(b, ss, true, first, xl);
    }
  }

  lemma ChainWhole(b: seq<byte>, ss: int, down: bool, first: seq<int>, xs: seq<int>)
    requires Chain(b, ss, down, first, xs)
    ensures |xs| >= |first| + |Preds(b, xs, ss)| ==> Scanned(b, ss, down, first, xs)
  {
    var w := first + Preds(b, xs, ss);
    assert w[..|w|] == w;
  }

  lemma ScanBoundsDown(b: seq<byte>, ss: int, done: seq<bool>, s0: seq<int>, s: seq<int>, cs: seq<int>, ce: seq<int>, xl: seq<int>, xr: seq<int>)
    requires Scanning(b, ss, done, s0, s, cs, ce, xl, xr)
    ensures |ce| == |done| == 256 && 0 <= ss < 256 && |s| == |b|
    ensures Start(b, 256 * ss + 256) - 1 - |xr| > ce[ss] ==>
              0 <= Start(b, 256 * ss + 256) - 1 - |xr| < |b| && 0 <= s[Start(b, 256 * ss + 256) - 1 - |xr|] < |b|
    ensures Start(b, 256 * ss + 256) - 1 - |xr| <= ce[ss] ==> |s0| == |b| && Scanned(b, ss, false, First(b, ss, false, s0), xr)
  {
    hide Scanning, Preds, Start, Lo, Hi, First, Ready, Written, Positions, Listing, StepOf, InPlace, Chain;
    ScanningFacts(b, ss, done, s0, s, cs, ce, xl, xr);
    var first, j := First(b, ss, false, s0), Start(b, 256 * ss + 256) - 1 - |xr|;
    if j > ce[ss] {
      ReadDown(b, ss, done, s0, s, cs, ce, xl, xr, j);
      ChainNext(b, ss, false, first, xr, s[j]);
    } else {
      SlotsOf(b, ss, done, s0, s, cs, ce, xl, xr, ss);
      FirstSize(b, ss, s0);
      ChainWhole(b, ss, false, first, xr);
    }
  }

  method ScanUpwards(ptr: array<int>, copyStart: array<int>, copyEnd: array<int>, bigDone: array<bool>, block: seq<byte>, nblock: int,
                     ss: int, from: int, ghost b: seq<byte>, ghost s0: seq<int>)
    returns (ghost xl: seq<int>)
    requires ptr != copyStart && ptr != copyEnd && copyStart != copyEnd && copyStart.Length == 256 && bigDone.Length == 256
    requires nblock == |b| <= |block| && (forall k :: 0 <= k < nblock ==> block[k] == b[k]) && 0 <= ss < 256 && from == Start(b, 256 * ss)
    requires Scanning(b, ss, bigDone[..], s0, ptr[..], copyStart[..], copyEnd[..], [], [])
    modifies ptr, copyStart
    ensures Scanning(b, ss, bigDone[..], s0, ptr[..], copyStart[..], copyEnd[..], xl, [])
    ensures |s0| == |b| && Scanned(b, ss, true, First(b, ss, true, s0), xl)
  {
    hide *;
    var j := from;
    xl := [];
    ghost var done, ce := bigDone[..], copyEnd[..];
    while j < copyStart[ss]
      invariant j == from + |xl| && Scanning(b, ss, done, s0, ptr[..], copyStart[..], ce, xl, [])
      decreases nblock - j
    {
      ghost var s, cs := ptr[..], copyStart[..];
      ScanBoundsUp(b, ss, done, s0, s, cs, ce, xl, []);
      var k := ptr[j] - 1;
      if k < 0 {
        k := k + nblock;
      }
      PrevIs(ptr[j], nblock, k);
      var c1 := block[k];
      ghost var x := ptr[j];
      StepUp(b, ss, done, s0, s, cs, ce, xl, [], j, x, c1, s, cs);
      if !bigDone[c1] {
        ghost var s', cs' := s[cs[c1] := k], cs[c1 := cs[c1] + 1];
        StepUp(b, ss, done, s0, s, cs, ce, xl, [], j, x, c1, s', cs');
        ptr[copyStart[c1]] := k;
        copyStart[c1] := copyStart[c1] + 1;
      }
      xl := xl + [x];
      j := j + 1;
    }
    ScanBoundsUp(b, ss, done, s0, ptr[..], copyStart[..], ce, xl, []);
  }

  lemma PrevIs(x: int, n: int, k: int)
    requires 0 <= x < n && k == (if x - 1 < 0 then x - 1 + n else x - 1)
    ensures k == Prev(x, n) && 0 <= k < n
  {
  }

  method ScanDownwards(ptr: array<int>, copyStart: array<int>, copyEnd: array<int>, bigDone: array<bool>, block: seq<byte>, nblock: int,
                       ss: int, from: int, ghost b: seq<byte>, ghost s0: seq<int>, ghost xl: seq<int>)
    returns (ghost xr: seq<int>)
    requires ptr != copyStart && ptr != copyEnd && copyStart != copyEnd && copyEnd.Length == 256 && bigDone.Length == 256
    requires nblock == |b| <= |block| && (forall k :: 0 <= k < nblock ==> block[k] == b[k]) && 0 <= ss < 256 && from == Start(b, 256 * ss + 256) - 1
    requires Scanning(b, ss, bigDone[..], s0, ptr[..], copyStart[..], copyEnd[..], xl, [])
    modifies ptr, copyEnd
    ensures Scanning(b, ss, bigDone[..], s0, ptr[..], copyStart[..], copyEnd[..], xl, xr)
    ensures |s0| == |b| && Scanned(b, ss, false, First(b, ss, false, s0), xr)
  {
    hide *;
    var j := from;
    xr := [];
    ghost var done, cs := bigDone[..], copyStart[..];
    while j > copyEnd[ss]
      invariant j == from - |xr| && Scanning(b, ss, done, s0, ptr[..], cs, copyEnd[..], xl, xr)
      decreases j
    {
      ghost var s, ce := ptr[..], copyEnd[..];
      ScanBoundsDown(b, ss, done, s0, s, cs, ce, xl, xr);
      var k := ptr[j] - 1;
      if k < 0 {
        k := k + nblock;
      }
      PrevIs(ptr[j], nblock, k);
      var c1 := block[k];
      ghost var x := ptr[j];
      StepDown(b, ss, done, s0, s, cs, ce, xl, xr, j, x, c1, s, ce);
      if !bigDone[c1] {
        ghost var s', ce' := s[ce[c1] := k], ce[c1 := ce[c1] - 1];
        StepDown(b, ss, done, s0, s, cs, ce, xl, xr, j, x, c1, s', ce');
        ptr[copyEnd[c1]] := k;
        copyEnd[c1] := copyEnd[c1] - 1;
      }
      xr := xr + [x];
      j := j - 1;
    }
    ScanBoundsDown(b, ss, done, s0, ptr[..], cs, copyEnd[..], xl, xr);
  }

  // ---- what the two scans leave ----

  // Both scans are over.
  ghost predicate Finished(b: seq<byte>, ss: int, done: seq<bool>, s0: seq<int>, s: seq<int>, cs: seq<int>, ce: seq<int>, xl: seq<int>, xr: seq<int>) {
    && Scanning(b, ss, done, s0, s, cs, ce, xl, xr) && |s0| == |b|
    && Scanned(b, ss, true, First(b, ss, true, s0), xl) && Scanned(b, ss, false, First(b, ss, false, s0), xr)
    && Listing(b, ss, true, xl) && Listing(b, ss, false, xr)
  }

  lemma FinishedFrom(b: seq<byte>, ss: int, done: seq<bool>, s0: seq<int>, s: seq<int>, cs: seq<int>, ce: seq<int>, xl: seq<int>, xr: seq<int>)
    requires Scanning(b, ss, done, s0, s, cs, ce, xl, xr) && |s0| == |b| && 0 <= ss < 256
    requires Scanned(b, ss, true, First(b, ss, true, s0), xl) && Scanned(b, ss, false, First(b, ss, false, s0), xr)
    ensures Finished(b, ss, done, s0, s, cs, ce, xl, xr)
  {
    hide Scanning, First, Chain, Listing;
    ScanningFacts(b, ss, done, s0, s, cs, ce, xl, xr);
    ChainListed(b, ss, true, First(b, ss, true, s0), xl);
    ChainListed(b, ss, false, First(b, ss, false, s0), xr);
  }

  lemma FinishedFacts(b: seq<byte>, ss: int, done: seq<bool>, s0: seq<int>, s: seq<int>, cs: seq<int>, ce: seq<int>, xl: seq<int>, xr: seq<int>)
    requires Finished(b, ss, done, s0, s, cs, ce, xl, xr)
    ensures 0 <= ss < 256 && |done| == |cs| == |ce| == 256 && !done[ss] && |s0| == |s| == |b| >= 2 && Positions(b, xl) && Positions(b, xr)
    ensures Ready(b, ss, done, s0) && Written(b, ss, done, s0, s, cs, ce, xl, xr) && InPlace(b, s0)
    ensures Scanned(b, ss, true, First(b, ss, true, s0), xl) && Scanned(b, ss, false, First(b, ss, false, s0), xr)
    ensures Listing(b, ss, true, xl) && Listing(b, ss, false, xr)
  {
    hide First, Chain, Listing, Scanned;
    ScanningFacts(b, ss, done, s0, s, cs, ce, xl, xr);
  }

  // A row of a written bucket: from below the upward scan's entry, else the downward scan's.
  lemma FilledRow(b: seq<byte>, ss: int, done: seq<bool>, s0: seq<int>, s: seq<int>, cs: seq<int>, ce: seq<int>, xl: seq<int>, xr: seq<int>, t: int, r: int)
    requires Finished(b, ss, done, s0, s, cs, ce, xl, xr) && !AllSame(b) && 0 <= t < 256 && !done[t] && Lo(b, t, ss) <= r < Hi(b, t, ss)
    ensures 0 <= r < |s| && Positions(b, xl) && Positions(b, xr)
    ensures |Preds(b, xl, t)| + |Preds(b, xr, t)| == Hi(b, t, ss) - Lo(b, t, ss)
    ensures if r - Lo(b, t, ss) < |Preds(b, xl, t)| then s[r] == Preds(b, xl, t)[r - Lo(b, t, ss)]
            else Hi(b, t, ss) - 1 - r < |Preds(b, xr, t)| && s[r] == Preds(b, xr, t)[Hi(b, t, ss) - 1 - r]
    ensures 0 <= s[r] < |b| && Pair(b, s[r]) == 256 * t + ss
    ensures Typed(b, r - Lo(b, t, ss) < |Preds(b, xl, t)|, Next(s[r], |b|))
  {
    hide Finished, Preds, Scanned, Listing, Lo, Hi, Ready, Written, First, AllSame, Typed, Pair, InPlace, Positions;
    FinishedFacts(b, ss, done, s0, s, cs, ce, xl, xr);
    BothFill(b, ss, done, s0, xl, xr, t);
    SlotsOf(b, ss, done, s0, s, cs, ce, xl, xr, t);
    var i := r - Lo(b, t, ss);
    if i < |Preds(b, xl, t)| {
      assert s[Lo(b, t, ss) + i] == Preds(b, xl, t)[i];
      PredPair(b, ss, true, xl, t, i);
    } else {
      var k := Hi(b, t, ss) - 1 - r;
      assert s[Hi(b, t, ss) - 1 - k] == Preds(b, xr, t)[k];
      PredPair(b, ss, false, xr, t, k);
    }
  }

  lemma RankedAt(b: seq<byte>, down: bool, w: seq<int>, i: int, j: int)
    requires Ranked(b, down, w) && 0 <= i < j < |w|
    ensures w[i] != w[j] && if down then Le(b, w[i], w[j]) else Le(b, w[j], w[i])
  {
  }

  lemma TwoSides(b: seq<byte>, ss: int, x: int, y: int)
    requires 0 <= x < |b| && 0 <= y < |b| && Pair(b, x) == Pair(b, y) == 256 * b[x] + ss && 0 <= ss < 256
    requires Typed(b, true, Next(x, |b|)) && Typed(b, false, Next(y, |b|))
    ensures x != y && Le(b, x, y)
  {
    var n := |b|;
    NextPrev(n, x);
    NextPrev(n, y);
    PairAgrees(b, x, y);
    TypesExclude(b, Next(x, n));
    DownBeforeUp(b, Next(x, n), Next(y, n), n);
    CmpPrepend(b, Next(x, n), Next(y, n));
  }

  lemma FilledOrder(b: seq<byte>, ss: int, done: seq<bool>, s0: seq<int>, s: seq<int>, cs: seq<int>, ce: seq<int>, xl: seq<int>, xr: seq<int>, t: int, p: int, q: int)
    requires Finished(b, ss, done, s0, s, cs, ce, xl, xr) && !AllSame(b) && 0 <= t < 256 && !done[t] && Lo(b, t, ss) <= p < q < Hi(b, t, ss)
    ensures 0 <= p < q < |s| && s[p] != s[q] && Le(b, s[p], s[q])
  {
    hide Finished, Preds, Scanned, Listing, Lo, Hi, Ready, Written, First, AllSame, Typed, InPlace, Positions, Ranked, Le;
    FinishedFacts(b, ss, done, s0, s, cs, ce, xl, xr);
    FilledRow(b, ss, done, s0, s, cs, ce, xl, xr, t, p);
    FilledRow(b, ss, done, s0, s, cs, ce, xl, xr, t, q);
    PredsRanked(b, ss, true, xl, t);
    PredsRanked(b, ss, false, xr, t);
    var lo, hi, pl, pr := Lo(b, t, ss), Hi(b, t, ss), Preds(b, xl, t), Preds(b, xr, t);
    if q - lo < |pl| {
      RankedAt(b, true, pl, p - lo, q - lo);
    } else if p - lo >= |pl| {
      RankedAt(b, false, pr, hi - 1 - q, hi - 1 - p);
    } else {
      TwoSides(b, ss, s[p], s[q]);
    }
  }

  // In a block of one repeated symbol nothing has type, and nothing is written.
  lemma AllSameUntouched(b: seq<byte>, ss: int, done: seq<bool>, s0: seq<int>, s: seq<int>, cs: seq<int>, ce: seq<int>, xl: seq<int>, xr: seq<int>)
    requires Finished(b, ss, done, s0, s, cs, ce, xl, xr) && AllSame(b)
    ensures s == s0 && cs[ss] == Lo(b, ss, ss) && ce[ss] == Hi(b, ss, ss) - 1
  {
    hide Finished, Scanned, Lo, Hi, Ready, First, Slots, Start, InRow;
    FinishedFacts(b, ss, done, s0, s, cs, ce, xl, xr);
    NoneTyped(b, ss, true, xl);
    NoneTyped(b, ss, false, xr);
    SlotsOf(b, ss, done, s0, s, cs, ce, xl, xr, ss);
    forall r | 0 <= r < |b| ensures s[r] == s0[r] {
      PlaceRange(b, s0);
      var t, y := b[s0[r]], b[Next(s0[r], |b|)];
      if y == ss && !done[t] {
        RowWithin(b, ss, s0, r);
        SlotsOf(b, ss, done, s0, s, cs, ce, xl, xr, t);
      }
      assert Unwritten(b, ss, done, s0, cs, ce, r);
    }
  }

  lemma RowWithin(b: seq<byte>, ss: int, s0: seq<int>, r: int)
    requires InPlace(b, s0) && 0 <= r < |b| && 0 <= s0[r] < |b| && b[Next(s0[r], |b|)] == ss
    ensures Lo(b, b[s0[r]], ss) <= r < Hi(b, b[s0[r]], ss)
  {
    assert InRow(b, s0[r], r);
  }

  lemma NoneTyped(b: seq<byte>, ss: int, down: bool, xs: seq<int>)
    requires AllSame(b) && Listing(b, ss, down, xs)
    ensures xs == []
  {
    if xs != [] {
      NotTyped(b, down, xs[0]);
    }
  }

  lemma NotTyped(b: seq<byte>, down: bool, p: int)
    requires AllSame(b) && 0 <= p < |b|
    ensures !Typed(b, down, p)
  {
    NextPrev(|b|, p);
    AllSameEqual(b, Next(p, |b|), p, |b|);
  }

  // ---- the result of step 2 ----

  // Every bucket [t, ss] of a big bucket not yet done is sorted, the rest is as before.
  ghost predicate Synthesised(b: seq<byte>, ss: int, done: seq<bool>, s0: seq<int>, s: seq<int>) {
    && InPlace(b, s) && |s0| == |b| && |done| == 256 && 0 <= ss < 256
    && (forall t {:trigger done[t]} :: 0 <= t < 256 && !done[t] ==> BucketSorted(b, s, 256 * t + ss))
    && (forall r :: 0 <= r < |b| && (b[Next(s[r], |b|)] != ss || done[b[s[r]]]) ==> s[r] == s0[r])
  }

  ghost predicate After(b: seq<byte>, ss: int, done: seq<bool>, s0: seq<int>, s: seq<int>, r: int) {
    && 0 <= r < |s| && |s| == |s0| && |done| == 256 && 0 <= s0[r] < |b| && 0 <= s[r] < |b|
    && InRow(b, s[r], r) && Pair(b, s[r]) == Pair(b, s0[r])
    && (b[Next(s[r], |b|)] != ss || done[b[s[r]]] ==> s[r] == s0[r])
    && (b[Next(s[r], |b|)] == ss ==> Lo(b, b[s[r]], ss) <= r < Hi(b, b[s[r]], ss))
  }

  // Row r after the scans: rewritten within its bucket, or as before.
  lemma RowAfter(b: seq<byte>, ss: int, done: seq<bool>, s0: seq<int>, s: seq<int>, cs: seq<int>, ce: seq<int>, xl: seq<int>, xr: seq<int>, r: int)
    requires Finished(b, ss, done, s0, s, cs, ce, xl, xr) && !AllSame(b) && 0 <= r < |b|
    ensures After(b, ss, done, s0, s, r)
  {
    hide Finished, Scanned, Lo, Hi, Ready, First, Slots, Start, InRow, Listing, Between, Preds, AllSame, Typed, Positions, IsPerm;
    FinishedFacts(b, ss, done, s0, s, cs, ce, xl, xr);
    PlaceRange(b, s0);
    var x := s0[r];
    var t := b[x];
    assert InRow(b, x, r);
    if b[Next(x, |b|)] == ss {
      RowWithin(b, ss, s0, r);
      if !done[t] {
        FilledRow(b, ss, done, s0, s, cs, ce, xl, xr, t, r);
        PairSplit(b, s[r], t, ss);
        SamePairRow(b, x, s[r], r);
      } else {
        assert Unwritten(b, ss, done, s0, cs, ce, r);
      }
    } else {
      assert Unwritten(b, ss, done, s0, cs, ce, r);
    }
  }

  lemma SamePairRow(b: seq<byte>, x: int, y: int, r: int)
    requires InRow(b, x, r) && 0 <= y < |b| && Pair(b, y) == Pair(b, x)
    ensures InRow(b, y, r)
  {
  }

  lemma AfterDistinct(b: seq<byte>, ss: int, done: seq<bool>, s0: seq<int>, s: seq<int>, cs: seq<int>, ce: seq<int>, xl: seq<int>, xr: seq<int>, p: int, q: int)
    requires Finished(b, ss, done, s0, s, cs, ce, xl, xr) && !AllSame(b) && 0 <= p < q < |b|
    ensures |s| == |b| && s[p] != s[q]
  {
    hide Finished, Scanned, Lo, Hi, Ready, First, Slots, Start, InRow, Listing, Between, Preds, AllSame, Typed, Positions, Pair, Written, Le;
    FinishedFacts(b, ss, done, s0, s, cs, ce, xl, xr);
    RowAfter(b, ss, done, s0, s, cs, ce, xl, xr, p);
    RowAfter(b, ss, done, s0, s, cs, ce, xl, xr, q);
    if s[p] == s[q] {
      if b[Next(s[p], |b|)] == ss && !done[b[s[p]]] {
        FilledOrder(b, ss, done, s0, s, cs, ce, xl, xr, b[s[p]], p, q);
      }
    }
  }

  lemma SynthesisedMixed(b: seq<byte>, ss: int, done: seq<bool>, s0: seq<int>, s: seq<int>, cs: seq<int>, ce: seq<int>, xl: seq<int>, xr: seq<int>)
    requires Finished(b, ss, done, s0, s, cs, ce, xl, xr) && !AllSame(b)
    ensures Synthesised(b, ss, done, s0, s) && cs[ss] - 1 == ce[ss]
  {
    hide Finished, Scanned, Ready, First, Slots, Start, InRow, Listing, Preds, AllSame, Typed, Positions, Pair, Written, Le;
    FinishedFacts(b, ss, done, s0, s, cs, ce, xl, xr);
    BothFill(b, ss, done, s0, xl, xr, ss);
    SlotsOf(b, ss, done, s0, s, cs, ce, xl, xr, ss);
    forall r | 0 <= r < |b| ensures InRow(b, s[r], r) && 0 <= s[r] < |b| && (b[Next(s[r], |b|)] != ss || done[b[s[r]]] ==> s[r] == s0[r]) {
      RowAfter(b, ss, done, s0, s, cs, ce, xl, xr, r);
    }
    forall p, q | 0 <= p < q < |b| ensures s[p] != s[q] {
      AfterDistinct(b, ss, done, s0, s, cs, ce, xl, xr, p, q);
    }
    forall t {:trigger done[t]} | 0 <= t < 256 && !done[t] ensures BucketSorted(b, s, 256 * t + ss) {
      BoundsLoHi(b, ss, t);
      forall p, q | Lo(b, t, ss) <= p < q < Hi(b, t, ss) ensures Le(b, s[p], s[q]) {
        FilledOrder(b, ss, done, s0, s, cs, ce, xl, xr, t, p, q);
      }
    }
  }

  lemma SynthesisedSame(b: seq<byte>, ss: int, done: seq<bool>, s0: seq<int>, s: seq<int>, cs: seq<int>, ce: seq<int>, xl: seq<int>, xr: seq<int>)
    requires Finished(b, ss, done, s0, s, cs, ce, xl, xr) && AllSame(b)
    ensures Synthesised(b, ss, done, s0, s) && (cs[ss] - 1 == ce[ss] || (cs[ss] == 0 && ce[ss] == |b| - 1))
  {
    hide Finished, Scanned, Ready, First, Slots, Listing, Preds, Typed, Positions, Written;
    FinishedFacts(b, ss, done, s0, s, cs, ce, xl, xr);
    AllSameUntouched(b, ss, done, s0, s, cs, ce, xl, xr);
    PlaceRange(b, s0);
    forall t {:trigger done[t]} | 0 <= t < 256 && !done[t] ensures BucketSorted(b, s, 256 * t + ss) {
      BoundsLoHi(b, ss, t);
      forall p, q | Lo(b, t, ss) <= p < q < Hi(b, t, ss) ensures Le(b, s[p], s[q]) {
        AllSameEqual(b, s[p], s[q], |b|);
      }
    }
    AllSameRows(b, ss, s0);
  }

  lemma AllSameRows(b: seq<byte>, ss: int, s0: seq<int>)
    requires AllSame(b) && InPlace(b, s0) && |b| >= 2 && 0 <= ss < 256
    ensures Lo(b, ss, ss) == Hi(b, ss, ss) || (Lo(b, ss, ss) == 0 && Hi(b, ss, ss) == |b|)
  {
    BoundsLoHi(b, ss, ss);
    if Lo(b, ss, ss) < Hi(b, ss, ss) {
      RowInBucket(b, ss, s0, ss, Lo(b, ss, ss));
      assert InRow(b, s0[0], 0) && InRow(b, s0[|b| - 1], |b| - 1);
      PlaceRange(b, s0);
      NextPrev(|b|, s0[0]);
      NextPrev(|b|, s0[|b| - 1]);
      assert Pair(b, s0[0]) == 256 * ss + ss && Pair(b, s0[|b| - 1]) == 256 * ss + ss;
    }
  }
}
