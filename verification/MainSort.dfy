// mainSort: small buckets sorted or synthesised one big bucket at a time.
module MainSort {
  import opened Perms
  import opened Rotations
  import opened MainCompare
  import opened MainSimpleSort
  import MainQSort
  import opened PairBuckets
  import InducedOrder
  import opened PointerScan
  import Radix
  import RunningOrder

  // ---- bucket table entries: a start row and a mark for "sorted" in bit 21 ----

  const SETMASK := 0x20_0000

  function Clear(x: int): int {
    x % SETMASK
  }

  predicate Marked(x: int) {
    x / SETMASK % 2 == 1
  }

  function Mark(x: int): (y: int)
    requires 0 <= x < 2 * SETMASK
    ensures 0 <= y < 2 * SETMASK && Clear(y) == Clear(x) && Marked(y)
  {
    if Marked(x) then x else x + SETMASK
  }

  // Starts and marks; whatever is marked is sorted.
  ghost predicate Table(b: seq<byte>, f: seq<int>) {
    |f| == 65537 && forall v :: 0 <= v <= 65536 ==> 0 <= f[v] < 2 * SETMASK && Clear(f[v]) == Start(b, v)
  }

  ghost predicate MarkedSorted(b: seq<byte>, s: seq<int>, f: seq<int>) {
    |f| == 65537 && |s| == |b| && forall v :: 0 <= v < 65536 && Marked(f[v]) ==> BucketSorted(b, s, v)
  }

  function SmallBucket(ss: int, j: int): (v: int)
    ensures v == 256 * ss + j
  {
    256 * ss + j
  }

  // Small buckets of a big bucket that is done carry the mark, on either side of the pair.
  ghost predicate DoneMarked(f: seq<int>, done: seq<bool>) {
    && |f| == 65537 && |done| == 256
    && forall t, y {:trigger SmallBucket(t, y)} :: 0 <= t < 256 && 0 <= y < 256 && (done[t] || done[y]) ==> Marked(f[SmallBucket(t, y)])
  }

  ghost predicate State(b: seq<byte>, s: seq<int>, f: seq<int>, done: seq<bool>) {
    && |b| > OVERSHOOT && |b| < SETMASK && InPlace(b, s) && Table(b, f) && MarkedSorted(b, s, f) && DoneMarked(f, done)
  }

  lemma TableStart(b: seq<byte>, f: seq<int>)
    requires |f| == 65537 && |b| < SETMASK && forall v :: 0 <= v <= 65536 ==> f[v] == Start(b, v)
    ensures Table(b, f) && forall v :: 0 <= v <= 65536 ==> !Marked(f[v])
  {
  }

  lemma StateStart(b: seq<byte>, s: seq<int>, f: seq<int>, done: seq<bool>)
    requires OVERSHOOT < |b| < SETMASK && InPlace(b, s) && |f| == 65537 && forall v :: 0 <= v <= 65536 ==> f[v] == Start(b, v)
    requires |done| == 256 && forall t :: 0 <= t < 256 ==> !done[t]
    ensures State(b, s, f, done)
  {
    hide Start, InPlace, Marked, Clear, BucketSorted;
    TableStart(b, f);
    PlaceRange(b, s);
  }

  lemma MarkOne(b: seq<byte>, s: seq<int>, f: seq<int>, done: seq<bool>, v: int)
    requires State(b, s, f, done) && 0 <= v < 65536 && BucketSorted(b, s, v) && 0 <= f[v] < 2 * SETMASK
    ensures State(b, s, f[v := Mark(f[v])], done)
  {
    hide Start, InPlace, BucketSorted, Marked, Clear, Mark;
    var y, g := Mark(f[v]), f[v := Mark(f[v])];
    assert Clear(y) == Clear(f[v]) && Marked(y);
    forall t, u {:trigger SmallBucket(t, u)} | 0 <= t < 256 && 0 <= u < 256 && (done[t] || done[u]) ensures Marked(g[SmallBucket(t, u)]) {
      assert Marked(f[SmallBucket(t, u)]);
    }
  }

  lemma TableAt(b: seq<byte>, s: seq<int>, f: seq<int>, done: seq<bool>, v: int)
    requires State(b, s, f, done) && 0 <= v <= 65536
    ensures |f| == 65537 && 0 <= f[v] < 2 * SETMASK && Clear(f[v]) == Start(b, v) && |s| == |b| && |done| == 256
    ensures v < 65536 && Marked(f[v]) ==> BucketSorted(b, s, v)
  {
    hide Start, BucketSorted, Marked, Clear;
  }

  // ---- step 1 ----

  // The rows of one small bucket share two symbols.
  lemma BucketPrefix(b: seq<byte>, s: seq<int>, v: int)
    requires InPlace(b, s) && |b| > OVERSHOOT
    ensures Prefix(b, s, Start(b, v), Start(b, v + 1) - 1, 2) && Start(b, v) <= Start(b, v + 1)
  {
    StartMonotone(b, v, v + 1);
    var lo, hi := Start(b, v), Start(b, v + 1) - 1;
    forall k | lo <= k <= hi ensures 0 <= s[k] < |b| && Pair(b, s[k]) == v {
      assert InRow(b, s[k], k);
      RowPair(b, s[k], k, v);
    }
    forall i, j | lo <= i <= hi && lo <= j <= hi ensures Cmp(b, s[i], s[j], 2) == 0 {
      PairAgrees(b, s[i], s[j]);
    }
  }

  // Sorting a bucket keeps the rows in place and the other buckets as they are.
  lemma BucketKept(b: seq<byte>, s: seq<int>, t: seq<int>, f: seq<int>, done: seq<bool>, v: int)
    requires State(b, s, f, done) && 0 <= v < 65536 && Start(b, v) <= Start(b, v + 1)
    requires PermIn(s, t, Start(b, v), Start(b, v + 1)) && BucketSorted(b, t, v)
    ensures State(b, t, f, done)
  {
    hide Start, DoneMarked, Table, BucketSorted;
    BucketInPlace(b, s, t, v);
    forall w | 0 <= w < 65536 && Marked(f[w]) ensures BucketSorted(b, t, w) {
      if w != v {
        BucketElsewhere(b, s, t, v, w);
      }
    }
  }

  lemma BucketInPlace(b: seq<byte>, s: seq<int>, t: seq<int>, v: int)
    requires InPlace(b, s) && Start(b, v) <= Start(b, v + 1) && PermIn(s, t, Start(b, v), Start(b, v + 1))
    ensures InPlace(b, t)
  {
    hide Start;
    var lo, hi := Start(b, v), Start(b, v + 1);
    IsPermKeptIn(s, t, |b|, lo, hi);
    forall r | 0 <= r < |b| ensures InRow(b, t[r], r) {
      assert InRow(b, s[r], r);
      if lo <= r < hi {
        var k := PermInFrom(s, t, lo, hi, r);
        assert InRow(b, s[k], k);
        RowPair(b, s[k], k, v);
      }
    }
  }

  lemma BucketElsewhere(b: seq<byte>, s: seq<int>, t: seq<int>, v: int, w: int)
    requires PermIn(s, t, Start(b, v), Start(b, v + 1)) && BucketSorted(b, s, w) && w != v
    ensures BucketSorted(b, t, w)
  {
    hide Start;
    if w < v {
      StartMonotone(b, w + 1, v);
    } else {
      StartMonotone(b, v + 1, w);
    }
  }

  lemma SmallSorted(b: seq<byte>, s: seq<int>, v: int)
    requires |s| == |b| && Start(b, v + 1) - 1 <= Start(b, v)
    ensures BucketSorted(b, s, v)
  {
  }

  // One small bucket [ss, j], unless it is already sorted.  It is given up when the budget
  // runs out.
  method SortSmall(ptr: array<int>, block: seq<byte>, quadrant: seq<int>, ftab: array<int>, nblock: int, sb: int, budget: int,
                   ghost done: seq<bool>, ghost b: seq<byte>)
    returns (left: int, ok: bool)
    requires ptr != ftab && ftab.Length == 65537 && ptr.Length == nblock == |b| && Extended(b, block) && Quadrants(b, quadrant)
    requires 0 <= sb < 65536 && State(b, ptr[..], ftab[..], done)
    modifies ptr, ftab
    ensures left <= budget && (!ok ==> left < 0)
    ensures ok ==> State(b, ptr[..], ftab[..], done) && Marked(ftab[sb])
    ensures forall v :: 0 <= v < 65537 && v != sb ==> ftab[v] == old(ftab[v])
  {
    hide *;
    left := budget;
    ghost var f := ftab[..];
    TableAt(b, ptr[..], f, done, sb);
    TableAt(b, ptr[..], f, done, sb + 1);
    if !Marked(ftab[sb]) {
      var lo, hi := Clear(ftab[sb]), Clear(ftab[sb + 1]) - 1;
      StateBucket(b, ptr[..], f, done, sb);
      if hi > lo {
        ghost var s := ptr[..];
        left := MainQSort.QSort3(ptr, block, quadrant, nblock, lo, hi, 2, left, b);
        if left < 0 {
          return left, false;
        }
        BucketIs(b, ptr[..], sb);
        BucketKept(b, s, ptr[..], f, done, sb);
      } else {
        SmallSorted(b, ptr[..], sb);
      }
    }
    MarkOne(b, ptr[..], f, done, sb);
    ftab[sb] := Mark(ftab[sb]);
    ok := true;
  }

  lemma BucketIs(b: seq<byte>, s: seq<int>, v: int)
    ensures BucketSorted(b, s, v) <==> MainSimpleSort.Sorted(b, s, Start(b, v), Start(b, v + 1) - 1)
  {
  }

  lemma StateBucket(b: seq<byte>, s: seq<int>, f: seq<int>, done: seq<bool>, v: int)
    requires State(b, s, f, done) && 0 <= v < 65536
    ensures |s| == |b| < 0x20_0000 && 0 <= Start(b, v) <= Start(b, v + 1) <= |b|
    ensures Prefix(b, s, Start(b, v), Start(b, v + 1) - 1, 2)
  {
    hide Start, Table, MarkedSorted, DoneMarked;
    BucketPrefix(b, s, v);
    PlaceRange(b, s);
  }

  // Step 1: all small buckets of big bucket ss but [ss, ss].
  method SortSides(ptr: array<int>, block: seq<byte>, quadrant: seq<int>, ftab: array<int>, nblock: int, ss: int, budget: int,
                   ghost done: seq<bool>, ghost b: seq<byte>)
    returns (left: int, ok: bool)
    requires ptr != ftab && ftab.Length == 65537 && ptr.Length == nblock == |b| && Extended(b, block) && Quadrants(b, quadrant)
    requires 0 <= ss < 256 && State(b, ptr[..], ftab[..], done)
    modifies ptr, ftab
    ensures left <= budget && (!ok ==> left < 0)
    ensures ok ==> State(b, ptr[..], ftab[..], done) && SidesMarked(ftab[..], ss, 256)
  {
    hide *;
    left := budget;
    ghost var none := 0;
    SidesStart(ftab[..], ss);
    var j := 0;
    while j <= 255
      invariant 0 <= j <= 256 && left <= budget
      invariant State(b, ptr[..], ftab[..], done) && SidesMarked(ftab[..], ss, j)
    {
      ghost var f, next := ftab[..], j + 1;
      if j != ss {
        var sb := ss * 256 + j;
        left, ok := SortSmall(ptr, block, quadrant, ftab, nblock, sb, left, done, b);
        if !ok {
          return;
        }
        SidesMore(f, ftab[..], ss, j, next);
      } else {
        SidesSkip(f, ss, next);
      }
      j := j + 1;
    }
    ok := true;
  }

  ghost predicate SidesMarked(f: seq<int>, ss: int, n: int) {
    |f| == 65537 && 0 <= ss < 256 && 0 <= n <= 256 && forall j :: 0 <= j < n && j != ss ==> Marked(f[SmallBucket(ss, j)])
  }

  lemma SidesStart(f: seq<int>, ss: int)
    requires |f| == 65537 && 0 <= ss < 256
    ensures SidesMarked(f, ss, 0)
  {
  }

  lemma SidesMore(f: seq<int>, g: seq<int>, ss: int, j: int, next: int)
    requires SidesMarked(f, ss, j) && j < 256 && next == j + 1 && |g| == 65537 && Marked(g[256 * ss + j])
    requires forall v :: 0 <= v < 65537 && v != 256 * ss + j ==> g[v] == f[v]
    ensures SidesMarked(g, ss, next)
  {
    hide Marked;
  }

  lemma SidesSkip(f: seq<int>, ss: int, next: int)
    requires SidesMarked(f, ss, ss) && next == ss + 1
    ensures SidesMarked(f, ss, next)
  {
  }

  // ---- step 2 ----

  lemma ReadyFrom(b: seq<byte>, s: seq<int>, f: seq<int>, done: seq<bool>, ss: int)
    requires State(b, s, f, done) && SidesMarked(f, ss, 256) && |done| == 256 && 0 <= ss < 256 && !done[ss]
    ensures Ready(b, ss, done, s)
  {
    hide Start, InPlace, BucketSorted, Marked, Clear;
    forall v | 256 * ss <= v < 256 * ss + 256 && v != 257 * ss ensures BucketSorted(b, s, v) {
      var y := v - 256 * ss;
      assert Marked(f[SmallBucket(ss, y)]);
    }
  }

  // Rows of a bucket the scans may not touch.
  lemma UntouchedBucket(b: seq<byte>, ss: int, done: seq<bool>, s0: seq<int>, s: seq<int>, t: int, y: int)
    requires Synthesised(b, ss, done, s0, s) && 0 <= t < 256 && 0 <= y < 256 && (y != ss || done[t])
    requires BucketSorted(b, s0, SmallBucket(t, y))
    ensures BucketSorted(b, s, SmallBucket(t, y))
  {
    hide Start;
    var v := SmallBucket(t, y);
    var lo, hi := Start(b, v), Start(b, v + 1);
    PlaceRange(b, s);
    forall r | lo <= r < hi ensures s[r] == s0[r] {
      assert InRow(b, s[r], r);
      RowPair(b, s[r], r, v);
      PairSplit(b, s[r], t, y);
    }
  }

  lemma SplitBucket(v: int) returns (t: int, y: int)
    requires 0 <= v < 65536
    ensures 0 <= t < 256 && 0 <= y < 256 && v == SmallBucket(t, y)
  {
    t, y := v / 256, v % 256;
  }

  lemma SynthesisedState(b: seq<byte>, s0: seq<int>, s: seq<int>, f: seq<int>, done: seq<bool>, ss: int)
    requires State(b, s0, f, done) && Synthesised(b, ss, done, s0, s)
    ensures State(b, s, f, done) && forall t :: 0 <= t < 256 ==> BucketSorted(b, s, SmallBucket(t, ss))
  {
    hide Start, BucketSorted, Marked, Clear, IsPerm, InRow;
    PlaceRange(b, s);
    forall v | 0 <= v < 65536 && Marked(f[v]) ensures BucketSorted(b, s, v) {
      var t, y := SplitBucket(v);
      if y != ss || done[t] {
        UntouchedBucket(b, ss, done, s0, s, t, y);
      }
    }
    forall t | 0 <= t < 256 ensures BucketSorted(b, s, SmallBucket(t, ss)) {
      if done[t] {
        assert Marked(f[SmallBucket(t, ss)]);
      }
    }
  }

  // Columns before n of the table carry the mark.
  ghost predicate ColumnMarked(f: seq<int>, ss: int, n: int) {
    |f| == 65537 && 0 <= ss < 256 && 0 <= n <= 256 && forall t :: 0 <= t < n ==> Marked(f[SmallBucket(t, ss)])
  }

  lemma DoneMore(b: seq<byte>, s: seq<int>, f: seq<int>, done: seq<bool>, ss: int)
    requires State(b, s, f, done) && SidesMarked(f, ss, 256) && ColumnMarked(f, ss, 256) && |done| == 256
    ensures State(b, s, f, done[ss := true])
  {
    hide Start, BucketSorted, Marked, Clear, InPlace;
    var more := done[ss := true];
    forall t, y {:trigger SmallBucket(t, y)} | 0 <= t < 256 && 0 <= y < 256 && (more[t] || more[y]) ensures Marked(f[SmallBucket(t, y)]) {
      if t == ss && y != ss {
        assert Marked(f[SmallBucket(ss, y)]);
      } else if y == ss {
        assert Marked(f[SmallBucket(t, ss)]);
      }
    }
  }

  lemma MarkKeeps(f: seq<int>, ss: int, v: int, x: int)
    requires SidesMarked(f, ss, 256) && 0 <= v < 65537 && Marked(x)
    ensures SidesMarked(f[v := x], ss, 256)
  {
    hide Marked;
  }

  lemma ColumnMore(f: seq<int>, ss: int, t: int, next: int, x: int)
    requires ColumnMarked(f, ss, t) && t < 256 && next == t + 1 && Marked(x)
    ensures ColumnMarked(f[SmallBucket(t, ss) := x], ss, next)
  {
    hide Marked;
  }

  method CopyCursors(ftab: array<int>, copyStart: array<int>, copyEnd: array<int>, ss: int, ghost b: seq<byte>)
    requires copyStart != copyEnd && ftab != copyStart && ftab != copyEnd
    requires ftab.Length == 65537 && copyStart.Length == copyEnd.Length == 256 && 0 <= ss < 256 && Table(b, ftab[..])
    modifies copyStart, copyEnd
    ensures forall t :: 0 <= t < 256 ==> copyStart[t] == Lo(b, t, ss) && copyEnd[t] == Hi(b, t, ss) - 1
  {
    hide Start, Clear;
    ghost var f := ftab[..];
    for j := 0 to 256
      invariant ftab[..] == f
      invariant forall t :: 0 <= t < j ==> copyStart[t] == Lo(b, t, ss) && copyEnd[t] == Hi(b, t, ss) - 1
    {
      assert Clear(f[j * 256 + ss]) == Start(b, 256 * j + ss);
      assert Clear(f[j * 256 + ss + 1]) == Start(b, 256 * j + ss + 1);
      copyStart[j] := Clear(ftab[j * 256 + ss]);
      copyEnd[j] := Clear(ftab[j * 256 + ss + 1]) - 1;
    }
  }

  // The two scans and the check of assertion 1007.
  method BothScans(ptr: array<int>, block: seq<byte>, ftab: array<int>, bigDone: array<bool>, copyStart: array<int>, copyEnd: array<int>,
                   nblock: int, ss: int, ghost b: seq<byte>)
    requires ptr != ftab && ptr != copyStart && ptr != copyEnd && copyStart != copyEnd && ftab != copyStart && ftab != copyEnd
    requires ftab.Length == 65537 && copyStart.Length == copyEnd.Length == 256 == bigDone.Length && ptr.Length == nblock == |b|
    requires nblock <= |block| && (forall k :: 0 <= k < nblock ==> block[k] == b[k]) && 0 <= ss < 256
    requires Ready(b, ss, bigDone[..], ptr[..]) && Table(b, ftab[..])
    modifies ptr, copyStart, copyEnd
    ensures Synthesised(b, ss, bigDone[..], old(ptr[..]), ptr[..])
  {
    ghost var s0, done := ptr[..], bigDone[..];
    assert 0 <= Clear(ftab[ss * 256]) == Start(b, 256 * ss);
    assert Clear(ftab[(ss + 1) * 256]) == Start(b, 256 * ss + 256);
    hide *;
    CopyCursors(ftab, copyStart, copyEnd, ss, b);
    ScanningStart(b, ss, done, s0, copyStart[..], copyEnd[..]);
    ghost var xl := ScanUpwards(ptr, copyStart, copyEnd, bigDone, block, nblock, ss, Clear(ftab[ss * 256]), b, s0);
    ghost var xr := ScanDownwards(ptr, copyStart, copyEnd, bigDone, block, nblock, ss, Clear(ftab[(ss + 1) * 256]) - 1, b, s0, xl);
    ScansDone(b, ss, done, s0, ptr[..], copyStart[..], copyEnd[..], xl, xr);
    assert copyStart[ss] - 1 == copyEnd[ss] || (copyStart[ss] == 0 && copyEnd[ss] == nblock - 1);
  }

  // Step 2: the scans and the marks.
  method Synthesise(ptr: array<int>, block: seq<byte>, ftab: array<int>, bigDone: array<bool>, copyStart: array<int>, copyEnd: array<int>,
                    nblock: int, ss: int, ghost b: seq<byte>)
    requires ptr != ftab && ptr != copyStart && ptr != copyEnd && copyStart != copyEnd && ftab != copyStart && ftab != copyEnd
    requires ftab.Length == 65537 && copyStart.Length == copyEnd.Length == 256 == bigDone.Length && ptr.Length == nblock == |b|
    requires nblock <= |block| && (forall k :: 0 <= k < nblock ==> block[k] == b[k]) && 0 <= ss < 256 && !bigDone[ss]
    requires State(b, ptr[..], ftab[..], bigDone[..]) && SidesMarked(ftab[..], ss, 256)
    modifies ptr, ftab, copyStart, copyEnd
    ensures State(b, ptr[..], ftab[..], bigDone[..][ss := true])
  {
    hide *;
    ghost var s0, done := ptr[..], bigDone[..];
    ReadyFrom(b, s0, ftab[..], done, ss);
    StateTable(b, s0, ftab[..], done);
    BothScans(ptr, block, ftab, bigDone, copyStart, copyEnd, nblock, ss, b);
    SynthesisedState(b, s0, ptr[..], ftab[..], done, ss);
    MarkColumn(ftab, ss, ptr[..], done, b);
    DoneMore(b, ptr[..], ftab[..], done, ss);
  }

  lemma StateTable(b: seq<byte>, s: seq<int>, f: seq<int>, done: seq<bool>)
    requires State(b, s, f, done)
    ensures Table(b, f)
  {
  }

  method MarkColumn(ftab: array<int>, ss: int, ghost s: seq<int>, ghost done: seq<bool>, ghost b: seq<byte>)
    requires ftab.Length == 65537 && State(b, s, ftab[..], done) && SidesMarked(ftab[..], ss, 256) && 0 <= ss < 256
    requires forall t :: 0 <= t < 256 ==> BucketSorted(b, s, SmallBucket(t, ss))
    modifies ftab
    ensures State(b, s, ftab[..], done) && SidesMarked(ftab[..], ss, 256) && ColumnMarked(ftab[..], ss, 256)
  {
    hide *;
    ColumnStart(ftab[..], ss);
    var j := 0;
    while j <= 255
      invariant 0 <= j <= 256
      invariant State(b, s, ftab[..], done) && SidesMarked(ftab[..], ss, 256) && ColumnMarked(ftab[..], ss, j)
    {
      var v, next := j * 256 + ss, j + 1;
      ghost var f := ftab[..];
      IsSmall(b, s, j, ss, v);
      TableAt(b, s, f, done, v);
      MarkOne(b, s, f, done, v);
      var x := Mark(ftab[v]);
      MarkKeeps(f, ss, v, x);
      ColumnMore(f, ss, j, next, x);
      ftab[v] := x;
      j := j + 1;
    }
  }

  lemma ColumnStart(f: seq<int>, ss: int)
    requires |f| == 65537 && 0 <= ss < 256
    ensures ColumnMarked(f, ss, 0)
  {
  }

  lemma IsSmall(b: seq<byte>, s: seq<int>, j: int, ss: int, v: int)
    requires v == j * 256 + ss && 0 <= j < 256 && forall t :: 0 <= t < 256 ==> BucketSorted(b, s, SmallBucket(t, ss))
    ensures v == SmallBucket(j, ss) && BucketSorted(b, s, v)
  {
    hide BucketSorted;
    assert BucketSorted(b, s, SmallBucket(j, ss));
  }

  lemma ScansDone(b: seq<byte>, ss: int, done: seq<bool>, s0: seq<int>, s: seq<int>, cs: seq<int>, ce: seq<int>, xl: seq<int>, xr: seq<int>)
    requires Scanning(b, ss, done, s0, s, cs, ce, xl, xr) && |s0| == |b| && 0 <= ss < 256 && |cs| == |ce| == 256
    requires InducedOrder.Scanned(b, ss, true, First(b, ss, true, s0), xl) && InducedOrder.Scanned(b, ss, false, First(b, ss, false, s0), xr)
    ensures Synthesised(b, ss, done, s0, s) && (cs[ss] - 1 == ce[ss] || (cs[ss] == 0 && ce[ss] == |b| - 1))
  {
    hide *;
    FinishedFrom(b, ss, done, s0, s, cs, ce, xl, xr);
    if InducedOrder.AllSame(b) {
      SynthesisedSame(b, ss, done, s0, s, cs, ce, xl, xr);
    } else {
      SynthesisedMixed(b, ss, done, s0, s, cs, ce, xl, xr);
    }
  }

  // ---- step 3 ----

  function Shr(x: nat, s: nat): nat {
    if s == 0 then x else Shr(x / 2, s - 1)
  }

  lemma {:induction false} ShrMonotone(x: nat, y: nat, s: nat)
    requires x <= y
    ensures Shr(x, s) <= Shr(y, s)
    decreases s
  {
    if s > 0 {
      ShrMonotone(x / 2, y / 2, s - 1);
    }
  }

  lemma {:induction false} ShrNext(x: nat, s: nat)
    ensures Shr(x, s + 1) == Shr(x, s) / 2
    decreases s
  {
    if s > 0 {
      ShrNext(x / 2, s - 1);
    }
  }

  // Rows start..start+size hold the positions of symbol ss in sorted order.
  ghost predicate BigSorted(b: seq<byte>, s: seq<int>, ss: int, start: int, size: int) {
    && IsPerm(s, |b|) && 0 <= start && 0 <= size && start + size <= |b|
    && (forall r :: 0 <= r < |b| ==> (b[s[r]] == ss <==> start <= r < start + size))
    && (forall p, q :: start <= p < q < start + size ==> Le(b, s[p], s[q]))
  }

  lemma BigFrom(b: seq<byte>, s: seq<int>, f: seq<int>, done: seq<bool>, ss: int)
    requires State(b, s, f, done) && 0 <= ss < 256 && |done| == 256 && done[ss]
    ensures 0 <= Start(b, 256 * ss) <= Start(b, 256 * ss + 256)
    ensures BigSorted(b, s, ss, Start(b, 256 * ss), Start(b, 256 * ss + 256) - Start(b, 256 * ss))
  {
    hide Start, BucketSorted, Marked, Clear;
    StartMonotone(b, 256 * ss, 256 * ss + 256);
    PlaceRange(b, s);
    forall r | 0 <= r < |b| ensures b[s[r]] == ss <==> Start(b, 256 * ss) <= r < Start(b, 256 * ss + 256) {
      assert InRow(b, s[r], r);
      RowFrom(b, s[r], r, 256 * ss);
      RowFrom(b, s[r], r, 256 * ss + 256);
      PairHigh(b, s[r], ss);
    }
    forall p, q | Start(b, 256 * ss) <= p < q < Start(b, 256 * ss + 256) ensures Le(b, s[p], s[q]) {
      assert InRow(b, s[p], p) && InRow(b, s[q], q);
      BigOrder(b, s, f, done, ss, p, q);
    }
  }

  lemma PairHigh(b: seq<byte>, x: int, ss: int)
    requires 0 <= x < |b|
    ensures b[x] == ss <==> 256 * ss <= Pair(b, x) < 256 * ss + 256
  {
  }

  lemma BigOrder(b: seq<byte>, s: seq<int>, f: seq<int>, done: seq<bool>, ss: int, p: int, q: int)
    requires State(b, s, f, done) && 0 <= ss < 256 && |done| == 256 && done[ss] && 0 <= p < q < |b| == |s|
    requires InRow(b, s[p], p) && InRow(b, s[q], q) && b[s[p]] == ss
    ensures Le(b, s[p], s[q])
  {
    hide Start, Marked, Clear, Le;
    var v := Pair(b, s[p]);
    if v == Pair(b, s[q]) {
      assert Marked(f[SmallBucket(ss, b[Next(s[p], |b|)])]);
      assert BucketSorted(b, s, v);
      BucketIs(b, s, v);
    } else {
      PairOrder(b, s, p, q);
    }
  }

  // Ranks have been entered for rows from + 1 .. start + size - 1.
  ghost predicate Ranking(b: seq<byte>, s: seq<int>, q0: seq<int>, q: seq<int>, ss: int, start: int, size: int, from: int, shifts: nat) {
    && BigSorted(b, s, ss, start, size) && |b| > OVERSHOOT && |q| == |q0| == |b| + OVERSHOOT && -1 <= from < size
    && (forall r :: start + from < r < start + size ==> q[s[r]] == Shr(r - start, shifts))
    && (forall p :: 0 <= p < |b| && b[p] != ss ==> q[p] == q0[p])
    && (forall k :: 0 <= k < OVERSHOOT ==> q[|b| + k] == q[k])
  }

  lemma RankingStep(b: seq<byte>, s: seq<int>, q0: seq<int>, q: seq<int>, ss: int, start: int, size: int, from: int, shifts: nat, next: int, q': seq<int>)
    requires Ranking(b, s, q0, q, ss, start, size, from, shifts) && from >= 0 && next == from - 1
    ensures 0 <= start + from < |s| && 0 <= s[start + from] < |b| && |q| == |b| + OVERSHOOT
    ensures q' == RankEntered(q, s[start + from], Shr(from, shifts), |b|) ==> Ranking(b, s, q0, q', ss, start, size, next, shifts)
  {
    hide Shr, Le;
    var x := s[start + from];
    assert 0 <= start + from < |s|;
    assert b[s[start + from]] == ss;
    if q' == RankEntered(q, x, Shr(from, shifts), |b|) {
      forall r | start + next < r < start + size ensures q'[s[r]] == Shr(r - start, shifts) {
        if r != start + from {
          assert s[r] != x;
        }
      }
    }
  }

  // The rank of x, in the overshoot area too where that repeats x.
  function RankEntered(q: seq<int>, x: int, v: int, n: int): seq<int>
    requires 0 <= x < n && n + OVERSHOOT == |q|
  {
    if x < OVERSHOOT then q[x := v][x + n := v] else q[x := v]
  }

  lemma RankingDone(b: seq<byte>, s: seq<int>, q0: seq<int>, q: seq<int>, ss: int, start: int, size: int, shifts: nat)
    requires Ranking(b, s, q0, q, ss, start, size, -1, shifts) && Quadrants(b, q0)
    ensures Quadrants(b, q)
  {
    hide Shr;
    var n := |b|;
    forall i, j | 0 <= i < n && 0 <= j < n && b[i] == b[j] && q[i] < q[j] ensures Cmp(b, i, j, n) <= 0 {
      if b[i] == ss {
        var p := PermHits(s, n, i);
        var r := PermHits(s, n, j);
        assert q[s[p]] == Shr(p - start, shifts) && q[s[r]] == Shr(r - start, shifts);
        if r <= p {
          ShrMonotone(r - start, p - start, shifts);
        }
        assert Le(b, s[p], s[r]);
      }
    }
  }

  // Enough right shifts to fit ranks below size into 16 bits.
  method ShiftsFor(size: nat) returns (shifts: nat)
    ensures Shr(size, shifts) <= 65534 && (shifts > 0 ==> Shr(size, shifts - 1) > 65534)
  {
    shifts := 0;
    while Shr(size, shifts) > 65534
      invariant shifts > 0 ==> Shr(size, shifts - 1) > 65534
      decreases Shr(size, shifts)
    {
      ShrNext(size, shifts);
      shifts := shifts + 1;
    }
  }

  method EnterRanks(ptr: array<int>, quadrant: array<int>, nblock: int, bbStart: int, bbSize: int, ghost ss: int, ghost b: seq<byte>)
    requires ptr != quadrant && ptr.Length == nblock == |b| && BigSorted(b, ptr[..], ss, bbStart, bbSize) && Quadrants(b, quadrant[..])
    modifies quadrant
    ensures Quadrants(b, quadrant[..])
  {
    hide *;
    ghost var q0, s := quadrant[..], ptr[..];
    BigSize(b, s, ss, bbStart, bbSize);
    var size: nat := bbSize;
    var shifts := ShiftsFor(size);
    RankingStart(b, s, q0, ss, bbStart, bbSize, shifts);
    var j := bbSize - 1;
    while j >= 0
      invariant -1 <= j < bbSize && ptr[..] == s
      invariant Ranking(b, s, q0, quadrant[..], ss, bbStart, bbSize, j, shifts)
    {
      ghost var q, next := quadrant[..], j - 1;
      RankingStep(b, s, q0, q, ss, bbStart, bbSize, j, shifts, next, q);
      var a2update := ptr[bbStart + j];
      ShrMonotone(j, size, shifts);
      var qVal := Shr(j, shifts);
      EnterRank(quadrant, a2update, qVal, nblock);
      RankingStep(b, s, q0, q, ss, bbStart, bbSize, j, shifts, next, quadrant[..]);
      j := j - 1;
    }
    if bbSize >= 1 {
      ShrMonotone(bbSize - 1, size, shifts);
      assert Shr(bbSize - 1, shifts) <= 65535;
    }
    RankingDone(b, s, q0, quadrant[..], ss, bbStart, bbSize, shifts);
  }

  lemma RankingStart(b: seq<byte>, s: seq<int>, q0: seq<int>, ss: int, start: int, size: int, shifts: nat)
    requires BigSorted(b, s, ss, start, size) && Quadrants(b, q0)
    ensures Ranking(b, s, q0, q0, ss, start, size, size - 1, shifts)
  {
  }

  lemma BigSize(b: seq<byte>, s: seq<int>, ss: int, start: int, size: int)
    requires BigSorted(b, s, ss, start, size)
    ensures size >= 0
  {
  }

  // A 16-bit rank, entered in the overshoot area as well.
  method EnterRank(quadrant: array<int>, a2update: int, qVal: int, nblock: int)
    requires 0 <= a2update < nblock && nblock + OVERSHOOT == quadrant.Length && 0 <= qVal < 65536
    modifies quadrant
    ensures quadrant[..] == RankEntered(old(quadrant[..]), a2update, qVal, nblock)
  {
    quadrant[a2update] := qVal % 65536;
    if a2update < OVERSHOOT {
      quadrant[a2update + nblock] := qVal % 65536;
    }
  }

  // ---- the whole sort ----

  // The block and a copy of its first symbols, with all quadrants zero.
  method ExtendBlock(block: array<byte>, quadrant: array<int>, nblock: int, ghost b: seq<byte>)
    requires OVERSHOOT < nblock == |b| && block.Length == quadrant.Length == nblock + OVERSHOOT
    requires block[..nblock] == b && forall k :: 0 <= k < nblock ==> quadrant[k] == 0
    modifies block, quadrant
    ensures Extended(b, block[..]) && Quadrants(b, quadrant[..]) && block[..nblock] == b
  {
    assert forall k :: 0 <= k < nblock ==> block[k] == b[k];
    for i := 0 to OVERSHOOT
      invariant forall k :: 0 <= k < nblock + i ==> block[k] == b[Wrap(k, nblock)]
      invariant forall k :: 0 <= k < nblock + i ==> quadrant[k] == 0
    {
      block[nblock + i] := block[i];
      quadrant[nblock + i] := 0;
    }
    assert forall k :: 0 <= k < nblock ==> block[k] == b[k];
  }

  // Sizes of the big buckets, read off the table before anything is marked.
  method BigSizes(ftab: array<int>) returns (size: seq<int>)
    requires ftab.Length == 65537
    ensures |size| == 256 && forall k :: 0 <= k < 256 ==> size[k] == ftab[(k + 1) * 256] - ftab[k * 256]
  {
    size := seq(256, k requires 0 <= k < 256 reads ftab => ftab[(k + 1) * 256] - ftab[k * 256]);
  }

  // Done exactly for the big buckets taken so far.
  ghost predicate Taken(done: seq<bool>, ro: seq<int>, i: int) {
    && |done| == 256 && IsPerm(ro, 256) && 0 <= i <= 256
    && (forall k :: 0 <= k < 256 ==> (done[ro[k]] <==> k < i))
  }

  lemma TakenNext(done: seq<bool>, ro: seq<int>, i: int, next: int)
    requires Taken(done, ro, i) && i < 256 && next == i + 1
    ensures 0 <= ro[i] < 256 && !done[ro[i]] && Taken(done[ro[i] := true], ro, next)
  {
  }

  lemma TakenAll(b: seq<byte>, s: seq<int>, f: seq<int>, done: seq<bool>, ro: seq<int>)
    requires State(b, s, f, done) && Taken(done, ro, 256)
    ensures SortedOrder(b, s)
  {
    hide Start, BucketSorted, Marked, Clear, InPlace;
    forall v | 0 <= v < 65536 ensures BucketSorted(b, s, v) {
      var t, y := SplitBucket(v);
      var k := PermHits(ro, 256, t);
      assert Marked(f[SmallBucket(t, y)]);
    }
    BucketsSorted(b, s);
  }

  // One big bucket.
  method SortBig(ptr: array<int>, block: seq<byte>, quadrant: array<int>, ftab: array<int>, bigDone: array<bool>,
                 copyStart: array<int>, copyEnd: array<int>, nblock: int, ss: int, last: bool, budget: int, ghost b: seq<byte>)
    returns (left: int, ok: bool)
    requires ptr != ftab && ptr != copyStart && ptr != copyEnd && ptr != quadrant && copyStart != copyEnd
    requires ftab != copyStart && ftab != copyEnd && ftab != quadrant && quadrant != copyStart && quadrant != copyEnd
    requires ftab.Length == 65537 && copyStart.Length == copyEnd.Length == 256 == bigDone.Length && ptr.Length == nblock == |b|
    requires Extended(b, block) && Quadrants(b, quadrant[..]) && 0 <= ss < 256 && !bigDone[ss]
    requires State(b, ptr[..], ftab[..], bigDone[..])
    modifies ptr, quadrant, ftab, bigDone, copyStart, copyEnd
    ensures left <= budget && (!ok ==> left < 0)
    ensures ok ==> State(b, ptr[..], ftab[..], bigDone[..]) && bigDone[..] == old(bigDone[..])[ss := true]
    ensures ok && !last ==> Quadrants(b, quadrant[..])
  {
    hide *;
    ghost var done := bigDone[..];
    ExtendedRead(b, block);
    left, ok := SortSides(ptr, block, quadrant[..], ftab, nblock, ss, budget, done, b);
    if !ok {
      return;
    }
    assert !bigDone[ss];
    Synthesise(ptr, block, ftab, bigDone, copyStart, copyEnd, nblock, ss, b);
    bigDone[ss] := true;
    ghost var f, s := ftab[..], ptr[..];
    if !last {
      BigFrom(b, s, f, bigDone[..], ss);
      TableAt(b, s, f, bigDone[..], 256 * ss);
      TableAt(b, s, f, bigDone[..], 256 * ss + 256);
      var bbStart := Clear(ftab[ss * 256]);
      var bbSize := Clear(ftab[(ss + 1) * 256]) - bbStart;
      EnterRanks(ptr, quadrant, nblock, bbStart, bbSize, ss, b);
    }
  }

  lemma ExtendedRead(b: seq<byte>, block: seq<byte>)
    requires Extended(b, block)
    ensures |b| <= |block| && forall k :: 0 <= k < |b| ==> block[k] == b[k]
  {
  }

  method PrepareRows(ptr: array<int>, block: array<byte>, quadrant: array<int>, ftab: array<int>, nblock: int, ghost b: seq<byte>)
    requires ptr != ftab && ptr != quadrant && ftab != quadrant && ftab.Length == 65537 && ptr.Length == nblock
    requires OVERSHOOT < nblock == |b| && block.Length == quadrant.Length == nblock + OVERSHOOT && block[..nblock] == b
    modifies ptr, block, quadrant, ftab
    ensures Extended(b, block[..]) && Quadrants(b, quadrant[..]) && block[..nblock] == b
    ensures InPlace(b, ptr[..]) && forall v :: 0 <= v <= 65536 ==> ftab[v] == Start(b, v)
  {
    assert forall k :: 0 <= k < nblock ==> block[..nblock][k] == block[..][k];
    hide *;
    Radix.CountPairs(ftab, quadrant, block[..], nblock, b);
    ghost var f := ftab[..];
    ExtendBlock(block, quadrant, nblock, b);
    ExtendedRead(b, block[..]);
    Radix.SumUp(ftab, Pairs(b));
    Radix.DealRows(ftab, ptr, block[..], nblock, b);
  }

  // The big buckets by increasing size, none of them done.
  method OrderBuckets(ftab: array<int>) returns (runningOrder: array<int>, bigDone: array<bool>, size: seq<int>)
    requires ftab.Length == 65537
    ensures fresh(runningOrder) && fresh(bigDone) && runningOrder.Length == bigDone.Length == 256
    ensures IsPerm(runningOrder[..], 256) && forall k :: 0 <= k < 256 ==> !bigDone[k]
    ensures |size| == 256 && (forall k :: 0 <= k < 256 ==> size[k] == ftab[(k + 1) * 256] - ftab[k * 256]) && RunningOrder.BySize(size, runningOrder[..], 256)
  {
    hide *;
    runningOrder, bigDone := new int[256], new bool[256];
    for i := 0 to 256
      invariant forall k :: 0 <= k < i ==> runningOrder[k] == k && !bigDone[k]
    {
      bigDone[i] := false;
      runningOrder[i] := i;
    }
    size := BigSizes(ftab);
    RunningOrder.SortBuckets(runningOrder, size);
  }

  lemma TakenStart(done: seq<bool>, ro: seq<int>)
    requires |done| == 256 && IsPerm(ro, 256) && forall k :: 0 <= k < 256 ==> !done[k]
    ensures Taken(done, ro, 0)
  {
  }

  // The big buckets one after the other.
  method SortBuckets(ptr: array<int>, block: seq<byte>, quadrant: array<int>, ftab: array<int>, runningOrder: seq<int>,
                     bigDone: array<bool>, nblock: int, budget: int, ghost b: seq<byte>)
    returns (left: int)
    requires ptr != ftab && ptr != quadrant && ftab != quadrant && ftab.Length == 65537 && ptr.Length == nblock == |b| && |runningOrder| == 256 == bigDone.Length
    requires Extended(b, block) && Quadrants(b, quadrant[..]) && State(b, ptr[..], ftab[..], bigDone[..]) && Taken(bigDone[..], runningOrder, 0)
    modifies ptr, quadrant, ftab, bigDone
    ensures left <= budget && (left >= 0 ==> SortedOrder(b, ptr[..]))
  {
    hide *;
    var copyStart, copyEnd := new int[256], new int[256];
    left := budget;
    var i := 0;
    while i <= 255
      invariant 0 <= i <= 256 && left <= budget
      invariant State(b, ptr[..], ftab[..], bigDone[..]) && Taken(bigDone[..], runningOrder, i)
      invariant i <= 255 ==> Quadrants(b, quadrant[..])
    {
      ghost var next := i + 1;
      TakenNext(bigDone[..], runningOrder, i, next);
      var ss := runningOrder[i];
      var ok;
      left, ok := SortBig(ptr, block, quadrant, ftab, bigDone, copyStart, copyEnd, nblock, ss, i == 255, left, b);
      if !ok {
        return;
      }
      i := i + 1;
    }
    TakenAll(b, ptr[..], ftab[..], bigDone[..], runningOrder);
  }

  // mainSort.  A negative result means that the budget ran out.
  method Sort(ptr: array<int>, block: array<byte>, quadrant: array<int>, ftab: array<int>, nblock: int, budget: int)
    returns (left: int)
    requires ptr != ftab && ptr != quadrant && ftab != quadrant && ftab.Length == 65537 && ptr.Length == nblock
    requires OVERSHOOT < nblock < SETMASK && block.Length == quadrant.Length == nblock + OVERSHOOT
    modifies ptr, block, quadrant, ftab
    ensures block[..nblock] == old(block[..nblock]) && left <= budget
    ensures left >= 0 ==> SortedOrder(old(block[..nblock]), ptr[..])
  {
    hide State, Extended, Quadrants, InPlace, SortedOrder, Taken, IsPerm, Start;
    ghost var b := block[..nblock];
    PrepareRows(ptr, block, quadrant, ftab, nblock, b);
    var runningOrder, bigDone, size := OrderBuckets(ftab);
    StateStart(b, ptr[..], ftab[..], bigDone[..]);
    TakenStart(bigDone[..], runningOrder[..]);
    left := SortBuckets(ptr, block[..], quadrant, ftab, runningOrder[..], bigDone, nblock, budget, b);
  }
}
