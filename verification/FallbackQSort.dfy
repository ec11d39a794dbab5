// fallbackSimpleSort and fallbackQSort3: sorting a range of fmap by equivalence class.
module FallbackQSort {
  import opened Perms
  import opened Partition3
  import opened SegmentStack

  // Keys in non-decreasing order on [lo, hi].
  ghost predicate KeysSorted(keys: seq<int>, s: seq<int>, lo: int, hi: int) {
    && Valid(keys, 0, s, lo, hi)
    && forall p, q :: lo <= p < q <= hi ==> keys[s[p]] <= keys[s[q]]
  }

  // tmp has been lifted out of position i; entries below it have moved down by step; the
  // hole is at j - step.  For step 1 the rest of the range is still sorted.
  ghost predicate Lifted(keys: seq<int>, s: seq<int>, tmp: int, i: int, j: int, lo: int, hi: int) {
    && Valid(keys, 0, s, lo, hi) && lo <= i < j <= hi + 1 && s[j - 1] == tmp
    && (forall p, q :: i <= p < q <= hi && p != j - 1 && q != j - 1 ==> keys[s[p]] <= keys[s[q]])
    && (forall p :: i <= p < j - 1 ==> keys[s[p]] <= keys[tmp])
  }

  lemma LiftedStart(keys: seq<int>, s: seq<int>, i: int, lo: int, hi: int)
    requires Valid(keys, 0, s, lo, hi) && lo <= i < hi && KeysSorted(keys, s, i + 1, hi)
    ensures Lifted(keys, s, s[i], i, i + 1, lo, hi)
  {
  }

  lemma LiftedStep(keys: seq<int>, s: seq<int>, tmp: int, i: int, hole: int, j: int, k: int, lo: int, hi: int)
    requires Lifted(keys, s, tmp, i, j, lo, hi) && hole == j - 1 && k == j + 1 && j <= hi && keys[tmp] > keys[s[j]]
    ensures Lifted(keys, Swapped(s, hole, j), tmp, i, k, lo, hi)
  {
  }

  lemma LiftedEnd(keys: seq<int>, s: seq<int>, tmp: int, i: int, j: int, lo: int, hi: int)
    requires Lifted(keys, s, tmp, i, j, lo, hi)
    requires j <= hi ==> keys[tmp] <= keys[s[j]]
    ensures KeysSorted(keys, s, i, hi)
  {
    forall p, q | i <= p < q <= hi ensures keys[s[p]] <= keys[s[q]] {
      if p == j - 1 {
        assert keys[s[j]] <= keys[s[q]];
      }
    }
  }

  // The inner loop of fallbackSimpleSort, entry i lifted out: put back into the hole, it
  // would complete a rearrangement of start.
  ghost predicate Sinking(keys: seq<int>, start: seq<int>, s: seq<int>, tmp: int, i: int, hole: int, j: int, lo: int, hi: int, track: bool) {
    && 0 <= lo <= i <= hole < j && hole <= hi < |s|
    && PermIn(start, s[hole := tmp], lo, hi + 1)
    && Valid(keys, 0, s[hole := tmp], lo, hi)
    && (track ==> j == hole + 1 && Lifted(keys, s[hole := tmp], tmp, i, j, lo, hi))
  }

  lemma SinkStart(keys: seq<int>, start: seq<int>, s: seq<int>, i: int, j: int, lo: int, hi: int, track: bool)
    requires lo <= i < j <= hi && Valid(keys, 0, s, lo, hi) && PermIn(start, s, lo, hi + 1)
    requires track ==> j == i + 1 && KeysSorted(keys, s, j, hi)
    ensures Sinking(keys, start, s, s[i], i, i, j, lo, hi, track)
  {
    assert s[i := s[i]] == s;
    if track { LiftedStart(keys, s, i, lo, hi); }
  }

  lemma SinkLook(keys: seq<int>, start: seq<int>, s: seq<int>, tmp: int, i: int, hole: int, j: int, lo: int, hi: int, track: bool)
    requires Sinking(keys, start, s, tmp, i, hole, j, lo, hi, track) && j <= hi
    ensures 0 <= tmp < |keys| && 0 <= s[j] < |keys|
  {
    assert s[hole := tmp][j] == s[j] && s[hole := tmp][hole] == tmp;
  }

  lemma SinkStep(keys: seq<int>, start: seq<int>, s: seq<int>, s': seq<int>, tmp: int, i: int, hole: int, j: int, k: int, lo: int, hi: int, track: bool)
    requires Sinking(keys, start, s, tmp, i, hole, j, lo, hi, track) && j <= hi
    requires s' == s[hole := s[j]] && k - j == j - hole
    requires 0 <= tmp < |keys| && 0 <= s[j] < |keys| && keys[tmp] > keys[s[j]]
    ensures Sinking(keys, start, s', tmp, i, j, k, lo, hi, track)
  {
    var cur := s[hole := tmp];
    assert cur[j] == s[j] && cur[hole] == tmp;
    if track { LiftedStep(keys, cur, tmp, i, hole, j, k, lo, hi); }
    PermInRefl(cur, lo, hi + 1);
    hide Lifted, PermIn, Valid;
    assert Swapped(cur, hole, j) == s'[j := tmp];
    SwappedIn(start, cur, hole, j, lo, hi);
    SwappedIn(cur, cur, hole, j, lo, hi);
    ValidKept(keys, 0, cur, Swapped(cur, hole, j), lo, hi);
  }

  lemma SinkEnd(keys: seq<int>, start: seq<int>, s: seq<int>, tmp: int, i: int, hole: int, j: int, lo: int, hi: int, track: bool)
    requires Sinking(keys, start, s, tmp, i, hole, j, lo, hi, track)
    requires j > hi || (0 <= tmp < |keys| && 0 <= s[j] < |keys| && keys[tmp] <= keys[s[j]])
    ensures PermIn(start, s[hole := tmp], lo, hi + 1) && Valid(keys, 0, s[hole := tmp], lo, hi)
    ensures track ==> KeysSorted(keys, s[hole := tmp], i, hi)
  {
    if track {
      LiftedEnd(keys, s[hole := tmp], tmp, i, j, lo, hi);
    }
  }

  method Sink(fmap: array<int>, keys: seq<int>, i: int, lo: int, hi: int, step: int, ghost start: seq<int>)
    requires 1 <= step && lo <= i && i + step <= hi && Valid(keys, 0, fmap[..], lo, hi)
    requires PermIn(start, fmap[..], lo, hi + 1)
    modifies fmap
    ensures PermIn(start, fmap[..], lo, hi + 1) && Valid(keys, 0, fmap[..], lo, hi)
    ensures step == 1 && old(KeysSorted(keys, fmap[..], i + 1, hi)) ==> KeysSorted(keys, fmap[..], i, hi)
  {
    var tmp := fmap[i];
    var ecTmp := keys[tmp];
    var hole, j := i, i + step;
    ghost var track := step == 1 && KeysSorted(keys, fmap[..], i + 1, hi);
    SinkStart(keys, start, fmap[..], i, j, lo, hi, track);
    hide PermIn, Lifted, KeysSorted, Valid, Sinking;
    while true
      invariant hole == j - step && lo <= i <= hole <= hi
      invariant Sinking(keys, start, fmap[..], tmp, i, hole, j, lo, hi, track)
      decreases hi - j
    {
      if j > hi { break; }
      SinkLook(keys, start, fmap[..], tmp, i, hole, j, lo, hi, track);
      if ecTmp <= keys[fmap[j]] { break; }
      var k := j + step;
      ghost var s := fmap[..];
      fmap[hole] := fmap[j];
      SinkStep(keys, start, s, fmap[..], tmp, i, hole, j, k, lo, hi, track);
      hole, j := j, k;
    }
    SinkEnd(keys, start, fmap[..], tmp, i, hole, j, lo, hi, track);
    fmap[hole] := tmp;
  }

  method FallbackSimpleSort(fmap: array<int>, keys: seq<int>, lo: int, hi: int)
    requires 0 <= lo <= hi + 1 && Valid(keys, 0, fmap[..], lo, hi)
    modifies fmap
    ensures PermIn(old(fmap[..]), fmap[..], lo, hi + 1) && KeysSorted(keys, fmap[..], lo, hi)
  {
    ghost var start := fmap[..];
    if lo == hi { return; }
    if hi - lo > 3 {
      var i := hi - 4;
      while i >= lo
        invariant lo - 1 <= i <= hi - 4
        invariant PermIn(start, fmap[..], lo, hi + 1) && Valid(keys, 0, fmap[..], lo, hi)
      {
        Sink(fmap, keys, i, lo, hi, 4, start);
        i := i - 1;
      }
    }
    var i := hi - 1;
    while i >= lo
      invariant lo - 1 <= i <= hi - 1 || hi < lo
      invariant PermIn(start, fmap[..], lo, hi + 1) && Valid(keys, 0, fmap[..], lo, hi)
      invariant hi >= lo ==> KeysSorted(keys, fmap[..], i + 1, hi)
    {
      Sink(fmap, keys, i, lo, hi, 1, start);
      i := i - 1;
    }
  }

  // ---- the quicksort ----

  ghost function KeyOrder(keys: seq<int>): (int, int) -> bool {
    (x, y) => 0 <= x < |keys| && 0 <= y < |keys| && keys[x] <= keys[y]
  }

  // Every entry is at most half as long as the one below it allows.
  ghost predicate Halving(stack: seq<Seg>, n: nat) {
    forall p :: 0 <= p < |stack| ==> stack[p].Size() <= Halved(n, p)
  }

  // What the main loop keeps: positions outside the pending entries are final.
  ghost predicate Pending(keys: seq<int>, stack: seq<Seg>, owner: seq<int>, s: seq<int>, lo: int, hi: int) {
    && |s| == |owner| && Valid(keys, 0, s, lo, hi)
    && Owns(stack, owner, lo, hi)
    && Apart(KeyOrder(keys), s, owner, lo, hi)
    && (forall p :: 0 <= p < |stack| ==> stack[p].d == 0)
  }

  ghost function Split(low: int, mid: int, high: int, n: int, m: int): int -> int {
    k => if k <= n then low else if k < m then mid else high
  }

  ghost predicate OuterParts(parts: seq<Seg>, lo: int, n: int, m: int, hi: int, lowFirst: bool) {
    parts == if lowFirst then [Seg(lo, n, 0), Seg(m, hi, 0)] else [Seg(m, hi, 0), Seg(lo, n, 0)]
  }

  // Elements on different sides of the partition, or both in its middle, are in order.
  lemma PartedApart(keys: seq<int>, t: seq<int>, med: int, l: int, n: int, m: int, h: int, p: nat, lowFirst: bool, f: int -> int)
    requires Parted(keys, 0, t, med, l, n, m, h)
    requires f == if lowFirst then Split(p, -1, p + 1, n, m) else Split(p + 1, -1, p, n, m)
    ensures forall i, j :: l <= i < j <= h && (f(i) != f(j) || f(i) < 0) ==> KeyOrder(keys)(t[i], t[j])
  {
    forall i, j | l <= i < j <= h && (f(i) != f(j) || f(i) < 0) ensures KeyOrder(keys)(t[i], t[j]) {
      assert Key(keys, 0, t[i]) == keys[t[i]] && Key(keys, 0, t[j]) == keys[t[j]];
    }
  }

  // A pending range replaced by its two outer thirds, in either stack order.
  lemma Divide(keys: seq<int>, stack: seq<Seg>, owner: seq<int>, s: seq<int>, t: seq<int>, lo: int, hi: int,
               med: int, l: int, n: int, m: int, h: int, parts: seq<Seg>, lowFirst: bool)
    returns (owner': seq<int>)
    requires stack != [] && Pending(keys, stack, owner, s, lo, hi)
    requires l == stack[|stack| - 1].lo && h == stack[|stack| - 1].hi
    requires PermIn(s, t, l, h + 1) && Parted(keys, 0, t, med, l, n, m, h) && OuterParts(parts, l, n, m, h, lowFirst)
    ensures Pending(keys, stack[..|stack| - 1] + parts, owner', t, lo, hi)
  {
    var p := |stack| - 1;
    var f := if lowFirst then Split(p, -1, p + 1, n, m) else Split(p + 1, -1, p, n, m);
    owner' := Reown(owner, l, h, f);
    OwnsReplace(stack, owner, lo, hi, parts, f);
    assert Apart(KeyOrder(keys), t, owner', lo, hi) by {
      PartedApart(keys, t, med, l, n, m, h, p, lowFirst, f);
      Regroup(KeyOrder(keys), s, t, owner, owner', lo, hi, l, h, p);
    }
    ValidOutside(keys, s, t, lo, hi, l, h);
    hide Owns, Apart, Valid, Parted, PermIn;
  }

  lemma ValidOutside(keys: seq<int>, s: seq<int>, t: seq<int>, lo: int, hi: int, l: int, h: int)
    requires Valid(keys, 0, s, lo, hi) && PermIn(s, t, l, h + 1) && lo <= l && h <= hi
    ensures Valid(keys, 0, t, lo, hi)
  {
    forall k | lo <= k <= hi ensures 0 <= t[k] < |keys| {
      if l <= k <= h {
        var j := PermInFrom(s, t, l, h + 1, k);
      }
    }
  }

  lemma Finish(keys: seq<int>, stack: seq<Seg>, owner: seq<int>, s: seq<int>, t: seq<int>, lo: int, hi: int)
    returns (owner': seq<int>)
    requires stack != [] && Pending(keys, stack, owner, s, lo, hi)
    requires PermIn(s, t, stack[|stack| - 1].lo, stack[|stack| - 1].hi + 1)
    requires KeysSorted(keys, t, stack[|stack| - 1].lo, stack[|stack| - 1].hi)
    ensures Pending(keys, stack[..|stack| - 1], owner', t, lo, hi)
  {
    var p := |stack| - 1;
    var l, h := stack[p].lo, stack[p].hi;
    var f := (k: int) => -1;
    owner' := Reown(owner, l, h, f);
    OwnsReplace(stack, owner, lo, hi, [], f);
    assert stack[..p] + [] == stack[..p];
    assert Apart(KeyOrder(keys), t, owner', lo, hi) by {
      Regroup(KeyOrder(keys), s, t, owner, owner', lo, hi, l, h, p);
    }
    assert Valid(keys, 0, t, lo, hi) by {
      ValidOutside(keys, s, t, lo, hi, l, h);
    }
  }

  // Everything the main loop keeps true.
  ghost predicate Sorting(keys: seq<int>, start: seq<int>, s: seq<int>, stack: seq<Seg>, owner: seq<int>, lo: int, hi: int) {
    && 0 <= lo <= hi + 1 && hi - lo + 1 < 0x8000_0000
    && Pending(keys, stack, owner, s, lo, hi)
    && PermIn(start, s, lo, hi + 1)
    && Halving(stack, hi - lo + 1)
    && |stack| <= 33
  }

  lemma SortingStart(keys: seq<int>, s: seq<int>, lo: int, hi: int) returns (owner: seq<int>)
    requires 0 <= lo <= hi + 1 && hi - lo + 1 < 0x8000_0000 && Valid(keys, 0, s, lo, hi)
    ensures Sorting(keys, s, s, [Seg(lo, hi, 0)], owner, lo, hi)
  {
    owner := seq(|s|, k => if lo <= k <= hi then 0 else -1);
    PermInRefl(s, lo, hi + 1);
  }

  lemma SortingTop(keys: seq<int>, start: seq<int>, s: seq<int>, stack: seq<Seg>, owner: seq<int>, lo: int, hi: int, top: Seg)
    requires Sorting(keys, start, s, stack, owner, lo, hi) && stack != [] && top == stack[|stack| - 1]
    ensures 0 <= top.lo <= top.hi + 1 <= |s| && Valid(keys, 0, s, top.lo, top.hi) && |stack| <= 33
    ensures top.lo <= top.hi ==>
              && HasKey(keys, 0, s, keys[s[top.lo]], top.lo, top.hi)
              && HasKey(keys, 0, s, keys[s[(top.lo + top.hi) / 2]], top.lo, top.hi)
              && HasKey(keys, 0, s, keys[s[top.hi]], top.lo, top.hi)
    ensures Work(stack[..|stack| - 1], 1) >= 0 && Work(stack, 1) == Work(stack[..|stack| - 1], 1) + top.Size()
  {
    assert Valid(keys, 0, s, top.lo, top.hi);
    if top.lo <= top.hi {
      assert Key(keys, 0, s[top.lo]) == keys[s[top.lo]];
      assert Key(keys, 0, s[top.hi]) == keys[s[top.hi]];
      assert Key(keys, 0, s[(top.lo + top.hi) / 2]) == keys[s[(top.lo + top.hi) / 2]];
    }
    WorkNonNegative(stack[..|stack| - 1], 1);
  }

  lemma SortingPop(keys: seq<int>, start: seq<int>, s: seq<int>, t: seq<int>, stack: seq<Seg>, owner: seq<int>, lo: int, hi: int, top: Seg)
    returns (owner': seq<int>)
    requires Sorting(keys, start, s, stack, owner, lo, hi) && stack != [] && top == stack[|stack| - 1]
    requires PermIn(s, t, top.lo, top.hi + 1) && KeysSorted(keys, t, top.lo, top.hi)
    ensures Sorting(keys, start, t, stack[..|stack| - 1], owner', lo, hi)
  {
    owner' := Finish(keys, stack, owner, s, t, lo, hi);
    PermInWiden(s, t, top.lo, top.hi + 1, lo, hi + 1);
    PermInTrans(start, s, t, lo, hi + 1);
  }

  // The smaller part goes on top, so each level of the stack halves the range.
  lemma SortingDivide(keys: seq<int>, start: seq<int>, s: seq<int>, t: seq<int>, stack: seq<Seg>, owner: seq<int>, lo: int, hi: int,
                      med: int, l: int, n: int, m: int, h: int, parts: seq<Seg>, lowFirst: bool)
    returns (owner': seq<int>)
    requires Sorting(keys, start, s, stack, owner, lo, hi) && stack != []
    requires l == stack[|stack| - 1].lo && h == stack[|stack| - 1].hi
    requires PermIn(s, t, l, h + 1) && Parted(keys, 0, t, med, l, n, m, h) && OuterParts(parts, l, n, m, h, lowFirst)
    requires h - l + 1 >= 2 && parts[0].Size() >= parts[1].Size()
    ensures Sorting(keys, start, t, stack[..|stack| - 1] + parts, owner', lo, hi)
    ensures 0 <= Work(stack[..|stack| - 1] + parts, 1) < Work(stack, 1)
  {
    HalvingDivide(stack, parts, hi - lo + 1);
    WorkDivide(stack, parts);
    hide Halving, Pending, PermIn, Parted, Work, Halved, Valid, OuterParts;
    owner' := Divide(keys, stack, owner, s, t, lo, hi, med, l, n, m, h, parts, lowFirst);
    PermInWiden(s, t, l, h + 1, lo, hi + 1);
    PermInTrans(start, s, t, lo, hi + 1);
  }

  lemma HalvingDivide(stack: seq<Seg>, parts: seq<Seg>, n: nat)
    requires stack != [] && |parts| == 2 && Halving(stack, n) && n < 0x8000_0000
    requires 2 <= stack[|stack| - 1].Size() && parts[0].Size() + parts[1].Size() <= stack[|stack| - 1].Size()
    requires 0 <= parts[1].Size() <= parts[0].Size()
    ensures Halving(stack[..|stack| - 1] + parts, n) && |stack| <= 31
  {
    var p := |stack| - 1;
    var stack' := stack[..p] + parts;
    HalvedGone(n, p);
    forall q | 0 <= q < |stack'| ensures stack'[q].Size() <= Halved(n, q) {
      if q < p {
        assert stack'[q] == stack[q];
      }
    }
  }

  lemma WorkPair(parts: seq<Seg>)
    requires |parts| == 2 && parts[0].d == 0 && parts[1].d == 0
    ensures Work(parts, 1) == parts[0].Size() + parts[1].Size()
  {
    var one := parts[..1];
    assert one[..0] == [] && one[0] == parts[0];
    assert Work(one, 1) == Weight(parts[0], 1);
    assert Work(parts, 1) == Work(one, 1) + Weight(parts[1], 1);
    assert Weight(parts[0], 1) == parts[0].Size() && Weight(parts[1], 1) == parts[1].Size();
  }

  lemma WorkDivide(stack: seq<Seg>, parts: seq<Seg>)
    requires stack != [] && |parts| == 2 && forall p :: 0 <= p < |stack| ==> stack[p].Size() >= 0 && stack[p].d == 0
    requires forall q :: 0 <= q < 2 ==> parts[q].Size() >= 0 && parts[q].d == 0
    requires parts[0].Size() + parts[1].Size() < stack[|stack| - 1].Size()
    ensures 0 <= Work(stack[..|stack| - 1] + parts, 1) < Work(stack, 1)
  {
    var a, top := stack[..|stack| - 1], stack[|stack| - 1];
    WorkNonNegative(a, 1);
    assert Work(stack, 1) == Work(a, 1) + Weight(top, 1);
    assert Weight(top, 1) == top.Size();
    hide Work, Weight;
    WorkPair(parts);
    WorkAppend(a, parts, 1);
  }

  lemma SortingDone(keys: seq<int>, start: seq<int>, s: seq<int>, owner: seq<int>, lo: int, hi: int)
    requires Sorting(keys, start, s, [], owner, lo, hi)
    ensures PermIn(start, s, lo, hi + 1) && KeysSorted(keys, s, lo, hi)
  {
    var le := KeyOrder(keys);
    forall i, j | lo <= i < j <= hi ensures keys[s[i]] <= keys[s[j]] {
      assert owner[i] == -1;
      assert le(s[i], s[j]);
    }
  }

  // fallbackQSort3: the range is sorted by key, only rearranged, and the stack of 100
  // entries never comes near its asserted limit.
  method FallbackQSort3(fmap: array<int>, keys: seq<int>, loSt: int, hiSt: int)
    requires 0 <= loSt <= hiSt + 1 && hiSt - loSt + 1 < 0x8000_0000 && Valid(keys, 0, fmap[..], loSt, hiSt)
    modifies fmap
    ensures PermIn(old(fmap[..]), fmap[..], loSt, hiSt + 1) && KeysSorted(keys, fmap[..], loSt, hiSt)
  {
    hide PermIn, KeysSorted, Valid, Sorting, HasKey, Parted;
    ghost var start := fmap[..];
    var r := 0;
    var stack := [Seg(loSt, hiSt, 0)];
    ghost var owner := SortingStart(keys, fmap[..], loSt, hiSt);
    WorkNonNegative(stack, 1);
    while |stack| > 0
      invariant 0 <= r < 32768
      invariant Sorting(keys, start, fmap[..], stack, owner, loSt, hiSt) && Work(stack, 1) >= 0
      decreases Work(stack, 1), |stack|
    {
      ghost var whole, s := stack, fmap[..];
      var top := stack[|stack| - 1];
      SortingTop(keys, start, s, whole, owner, loSt, hiSt, top);
      assert |stack| < 100 - 1;
      stack := stack[..|stack| - 1];
      var lo, hi := top.lo, top.hi;
      if hi - lo < 10 {
        FallbackSimpleSort(fmap, keys, lo, hi);
        owner := SortingPop(keys, start, s, fmap[..], whole, owner, loSt, hiSt, top);
        continue;
      }
      r := (r * 7621 + 1) % 32768;
      var r3 := r % 3;
      var med := keys[if r3 == 0 then fmap[lo] else if r3 == 1 then fmap[(lo + hi) / 2] else fmap[hi]];
      var equal, n, m := Partition(fmap, keys, 0, med, lo, hi);
      if equal {
        EqualSorted(keys, fmap[..], lo, hi, med);
        owner := SortingPop(keys, start, s, fmap[..], whole, owner, loSt, hiSt, top);
        continue;
      }
      // the larger part is pushed first
      var lowFirst := n - lo > hi - m;
      var parts := if lowFirst then [Seg(lo, n, 0), Seg(m, hi, 0)] else [Seg(m, hi, 0), Seg(lo, n, 0)];
      owner := SortingDivide(keys, start, s, fmap[..], whole, owner, loSt, hiSt, med, lo, n, m, hi, parts, lowFirst);
      stack := stack + parts;
    }
    SortingDone(keys, start, fmap[..], owner, loSt, hiSt);
  }

  lemma EqualSorted(keys: seq<int>, s: seq<int>, lo: int, hi: int, med: int)
    requires Valid(keys, 0, s, lo, hi) && forall k :: lo <= k <= hi ==> Key(keys, 0, s[k]) == med
    ensures KeysSorted(keys, s, lo, hi)
  {
    forall p, q | lo <= p < q <= hi ensures keys[s[p]] <= keys[s[q]] {
      assert Key(keys, 0, s[p]) == med && Key(keys, 0, s[q]) == med;
    }
  }
}
