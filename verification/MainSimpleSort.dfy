// mainSimpleSort: a shell sort of one range whose rotations agree in their first d symbols.
module MainSimpleSort {
  import opened Perms
  import opened Rotations
  import opened MainCompare

  ghost predicate Le(b: seq<byte>, x: int, y: int) {
    0 <= x < |b| && 0 <= y < |b| && Cmp(b, x, y, |b|) <= 0
  }

  // The entries of [lo, hi] are positions whose first d symbols agree.
  ghost predicate Prefix(b: seq<byte>, s: seq<int>, lo: int, hi: int, d: nat) {
    && 0 <= lo && hi < |s| && d <= 15 && |b| > OVERSHOOT
    && (forall k :: lo <= k <= hi ==> 0 <= s[k] < |b|)
    && (forall i, j :: lo <= i <= hi && lo <= j <= hi ==> Cmp(b, s[i], s[j], d) == 0)
  }

  ghost predicate Sorted(b: seq<byte>, s: seq<int>, lo: int, hi: int) {
    0 <= lo && hi < |s| && forall i, j :: lo <= i < j <= hi ==> Le(b, s[i], s[j])
  }

  lemma LeTrans(b: seq<byte>, x: int, y: int, z: int)
    requires Le(b, x, y) && Le(b, y, z)
    ensures Le(b, x, z)
  {
    CmpTrans(b, x, y, z, |b|);
  }

  lemma PrefixKept(b: seq<byte>, s: seq<int>, t: seq<int>, lo: int, hi: int, d: nat)
    requires Prefix(b, s, lo, hi, d) && PermIn(s, t, lo, hi + 1)
    ensures Prefix(b, t, lo, hi, d)
  {
    forall k | lo <= k <= hi ensures 0 <= t[k] < |b| {
      var j := PermInFrom(s, t, lo, hi + 1, k);
    }
    forall i, j | lo <= i <= hi && lo <= j <= hi ensures Cmp(b, t[i], t[j], d) == 0 {
      var i0 := PermInFrom(s, t, lo, hi + 1, i);
      var j0 := PermInFrom(s, t, lo, hi + 1, j);
    }
  }

  // Past d common symbols the comparison of the rests decides.
  lemma DeepAgrees(b: seq<byte>, x: int, y: int, d: nat, gt: bool)
    requires 0 <= x < |b| && 0 <= y < |b| && d <= |b| && Cmp(b, x, y, d) == 0
    requires Agrees(b, Wrap(x + d, |b|), Wrap(y + d, |b|), gt)
    ensures if gt then Le(b, y, x) else Le(b, x, y)
  {
    CmpAdd(b, x, y, d, |b|);
    CmpFull(b, x, y, d + |b|);
    CmpAnti(b, x, y, |b|);
  }

  // v has been lifted out of position i; the hole is where it would go.  With track, the
  // entries around the hole are in order and those right of it are not below v.
  ghost predicate Lifted(b: seq<byte>, start: seq<int>, s: seq<int>, v: int, lo: int, hole: int, i: int, hi: int, d: nat, track: bool) {
    && 0 <= lo <= hole <= i <= hi < |s|
    && PermIn(start, s[hole := v], lo, hi + 1) && Prefix(b, s[hole := v], lo, hi, d)
    && (track ==> Gap(b, s, v, lo, hole, i))
  }

  ghost predicate Gap(b: seq<byte>, s: seq<int>, v: int, lo: int, hole: int, i: int) {
    && 0 <= lo <= hole <= i < |s|
    && (forall p, q :: lo <= p < q <= i && p != hole && q != hole ==> Le(b, s[p], s[q]))
    && (forall q :: hole < q <= i ==> Le(b, v, s[q]))
  }

  lemma LiftStart(b: seq<byte>, s: seq<int>, lo: int, i: int, hi: int, d: nat, track: bool)
    requires lo <= i <= hi < |s| && Prefix(b, s, lo, hi, d)
    requires track ==> Sorted(b, s, lo, i - 1)
    ensures Lifted(b, s, s, s[i], lo, i, i, hi, d, track)
  {
    assert s[i := s[i]] == s;
  }

  lemma LiftRead(b: seq<byte>, start: seq<int>, s: seq<int>, v: int, lo: int, hole: int, i: int, hi: int, d: nat, track: bool, at: int)
    requires Lifted(b, start, s, v, lo, hole, i, hi, d, track) && lo <= at < hole
    ensures 0 <= v < |b| && 0 <= s[at] < |b| && Cmp(b, s[at], v, d) == 0 && d <= 15 < |b|
  {
    var cur := s[hole := v];
    assert cur[at] == s[at] && cur[hole] == v;
  }

  lemma LiftStep(b: seq<byte>, start: seq<int>, s: seq<int>, s': seq<int>, v: int, lo: int, hole: int, i: int, hi: int, d: nat, track: bool, at: int)
    requires Lifted(b, start, s, v, lo, hole, i, hi, d, track) && lo <= at < hole
    requires s' == s[hole := s[at]] && Le(b, v, s[at]) && (track ==> at == hole - 1)
    ensures Lifted(b, start, s', v, lo, at, i, hi, d, track)
  {
    hide Gap, PermIn, Prefix, Le;
    if track {
      GapStep(b, s, s', v, lo, hole, i, at);
    }
    HoleMoved(s, hole, at, v);
    LiftMove(b, start, s[hole := v], s'[at := v], lo, hole, hi, d, at);
  }

  lemma HoleMoved(s: seq<int>, hole: int, at: int, v: int)
    requires 0 <= hole < |s| && 0 <= at < |s| && hole != at
    ensures s[hole := s[at]][at := v] == s[hole := v][hole := s[at]][at := v]
    ensures s[hole := v][at] == s[at] && s[hole := v][hole] == v
  {
  }

  lemma LiftMove(b: seq<byte>, start: seq<int>, cur: seq<int>, next: seq<int>, lo: int, hole: int, hi: int, d: nat, at: int)
    requires 0 <= lo <= at < hole <= hi < |cur| && next == cur[hole := cur[at]][at := cur[hole]]
    requires PermIn(start, cur, lo, hi + 1) && Prefix(b, cur, lo, hi, d)
    ensures PermIn(start, next, lo, hi + 1) && Prefix(b, next, lo, hi, d)
  {
    hide PermIn, Prefix;
    var m := hi + 1;
    PermInSwap(cur, hole, at, lo, m);
    PrefixKept(b, cur, next, lo, hi, d);
    PermInTrans(start, cur, next, lo, m);
  }

  lemma GapStep(b: seq<byte>, s: seq<int>, s': seq<int>, v: int, lo: int, hole: int, i: int, at: int)
    requires Gap(b, s, v, lo, hole, i) && at == hole - 1 && lo <= at && s' == s[hole := s[at]] && Le(b, v, s[at])
    ensures Gap(b, s', v, lo, at, i)
  {
  }

  lemma LiftEnd(b: seq<byte>, start: seq<int>, s: seq<int>, v: int, lo: int, hole: int, i: int, hi: int, d: nat, track: bool)
    requires Lifted(b, start, s, v, lo, hole, i, hi, d, track)
    requires track && hole > lo ==> Le(b, s[hole - 1], v)
    ensures PermIn(start, s[hole := v], lo, hi + 1) && Prefix(b, s[hole := v], lo, hi, d)
    ensures track ==> Sorted(b, s[hole := v], lo, i)
  {
    if track {
      var t := s[hole := v];
      forall p, q | lo <= p < q <= i ensures Le(b, t[p], t[q]) {
        if q == hole && p < hole - 1 {
          LeTrans(b, s[p], s[hole - 1], v);
        }
      }
    }
  }

  // mainGtU past the common prefix.
  method Above(x: int, y: int, d: nat, block: seq<byte>, quadrant: seq<int>, nblock: int, budget: int, ghost b: seq<byte>)
    returns (gt: bool, left: int)
    requires nblock == |b| && Extended(b, block) && Quadrants(b, quadrant)
    requires 0 <= x < nblock && 0 <= y < nblock && d <= 15 < nblock && Cmp(b, x, y, d) == 0
    ensures (if gt then Le(b, y, x) else Le(b, x, y)) && left <= budget
  {
    gt, left := GtU(x + d, y + d, block, quadrant, nblock, budget, b);
    DeepAgrees(b, x, y, d, gt);
  }

  // One "copy" of the inner loop: entry i is inserted among those h, 2h, ... before it.
  method InsertOne(ptr: array<int>, block: seq<byte>, quadrant: seq<int>, nblock: int, lo: int, hi: int, d: nat, i: int, h: int,
                   budget: int, ghost track: bool, ghost b: seq<byte>)
    returns (left: int)
    requires nblock == |b| && Extended(b, block) && Quadrants(b, quadrant)
    requires 0 <= lo && 1 <= h && lo + h <= i <= hi < ptr.Length && Prefix(b, ptr[..], lo, hi, d)
    requires track ==> h == 1 && Sorted(b, ptr[..], lo, i - 1)
    modifies ptr
    ensures PermIn(old(ptr[..]), ptr[..], lo, hi + 1) && Prefix(b, ptr[..], lo, hi, d) && left <= budget
    ensures track ==> Sorted(b, ptr[..], lo, i)
  {
    var v := ptr[i];
    ghost var start := ptr[..];
    LiftStart(b, start, lo, i, hi, d, track);
    hide *;
    var j;
    j, left := FindHole(ptr, block, quadrant, nblock, lo, hi, d, i, h, v, budget, start, track, b);
    ptr[j] := v;
  }

  // Move larger entries up until v fits.
  method FindHole(ptr: array<int>, block: seq<byte>, quadrant: seq<int>, nblock: int, lo: int, hi: int, d: nat, i: int, h: int, v: int,
                  budget: int, ghost start: seq<int>, ghost track: bool, ghost b: seq<byte>)
    returns (j: int, left: int)
    requires nblock == |b| && Extended(b, block) && Quadrants(b, quadrant)
    requires 0 <= lo && 1 <= h && lo + h <= i <= hi < ptr.Length && (track ==> h == 1)
    requires Lifted(b, start, ptr[..], v, lo, i, i, hi, d, track)
    modifies ptr
    ensures lo <= j < ptr.Length && left <= budget
    ensures PermIn(start, ptr[..][j := v], lo, hi + 1) && Prefix(b, ptr[..][j := v], lo, hi, d)
    ensures track ==> Sorted(b, ptr[..][j := v], lo, i)
  {
    hide *;
    j := i;
    left := budget;
    while true
      invariant lo + h <= j <= i && left <= budget
      invariant Lifted(b, start, ptr[..], v, lo, j, i, hi, d, track)
      decreases j
    {
      var at := j - h;
      LiftRead(b, start, ptr[..], v, lo, j, i, hi, d, track, at);
      var gt;
      gt, left := Above(ptr[at], v, d, block, quadrant, nblock, left, b);
      if !gt {
        LiftEnd(b, start, ptr[..], v, lo, j, i, hi, d, track);
        return;
      }
      ghost var s := ptr[..];
      ptr[j] := ptr[at];
      LiftStep(b, start, s, ptr[..], v, lo, j, i, hi, d, track, at);
      j := at;
      if j <= lo + h - 1 {
        LiftEnd(b, start, ptr[..], v, lo, j, i, hi, d, track);
        return;
      }
    }
  }

  // Knuth's increments.
  const INCS: seq<int> := [1, 4, 13, 40, 121, 364, 1093, 3280, 9841, 29524, 88573, 265720, 797161, 2391484]

  function Increment(hp: int): (h: int)
    requires 0 <= hp < 14
    ensures h >= 1 && (hp == 0 ==> h == 1)
  {
    INCS[hp]
  }

  // The largest increment below the size of the range.
  method TopIncrement(bigN: int) returns (hp: int)
    requires 2 <= bigN <= 2391484
    ensures 0 <= hp <= 12 && Increment(hp) < bigN <= Increment(hp + 1)
  {
    hp := 0;
    while Increment(hp) < bigN
      invariant 0 <= hp <= 13 && (hp > 0 ==> Increment(hp - 1) < bigN)
      decreases 14 - hp
    {
      hp := hp + 1;
    }
    hp := hp - 1;
  }

  // One pass with increment h.  Only the last pass, with increment 1, has to sort, and it
  // may be given up halfway when the budget is gone.
  method Pass(ptr: array<int>, block: seq<byte>, quadrant: seq<int>, nblock: int, lo: int, hi: int, d: nat, h: int,
              budget: int, ghost b: seq<byte>)
    returns (left: int, done: bool)
    requires nblock == |b| && Extended(b, block) && Quadrants(b, quadrant) && 1 <= h
    requires 0 <= lo < hi < ptr.Length && Prefix(b, ptr[..], lo, hi, d)
    modifies ptr
    ensures PermIn(old(ptr[..]), ptr[..], lo, hi + 1) && Prefix(b, ptr[..], lo, hi, d) && left <= budget
    ensures if done then h == 1 ==> Sorted(b, ptr[..], lo, hi) else left < 0
  {
    var i := lo + h;
    left := budget;
    ghost var start, m := ptr[..], hi + 1;
    assert PermIn(start, start, lo, m);
    assert Sorted(b, start, lo, lo);
    hide *;
    ghost var last := i - 1;
    while true
      invariant lo + h <= i && last == i - 1 && left <= budget
      invariant PermIn(start, ptr[..], lo, m) && Prefix(b, ptr[..], lo, hi, d)
      invariant h == 1 ==> i <= hi + 1 && Sorted(b, ptr[..], lo, last)
      decreases hi - i
    {
      var more := true;
      i, left, more := Copy(ptr, block, quadrant, nblock, lo, hi, d, i, h, left, start, b);
      last := i - 1;
      if !more { break; }
      i, left, more := Copy(ptr, block, quadrant, nblock, lo, hi, d, i, h, left, start, b);
      last := i - 1;
      if !more { break; }
      i, left, more := Copy(ptr, block, quadrant, nblock, lo, hi, d, i, h, left, start, b);
      last := i - 1;
      if !more { break; }
      if left < 0 {
        return left, false;
      }
    }
    done := true;
  }

  method Copy(ptr: array<int>, block: seq<byte>, quadrant: seq<int>, nblock: int, lo: int, hi: int, d: nat, i0: int, h: int,
              budget: int, ghost start: seq<int>, ghost b: seq<byte>)
    returns (i: int, left: int, more: bool)
    requires nblock == |b| && Extended(b, block) && Quadrants(b, quadrant) && 1 <= h
    requires 0 <= lo < hi < ptr.Length && Prefix(b, ptr[..], lo, hi, d) && lo + h <= i0 && PermIn(start, ptr[..], lo, hi + 1)
    requires h == 1 ==> i0 <= hi + 1 && Sorted(b, ptr[..], lo, i0 - 1)
    modifies ptr
    ensures PermIn(start, ptr[..], lo, hi + 1) && Prefix(b, ptr[..], lo, hi, d) && left <= budget
    ensures more <==> i0 <= hi
    ensures i == (if more then i0 + 1 else i0)
    ensures h == 1 ==> i <= hi + 1 && Sorted(b, ptr[..], lo, i - 1)
  {
    i, left, more := i0, budget, i0 <= hi;
    if more {
      ghost var s, m := ptr[..], hi + 1;
      hide *;
      left := InsertOne(ptr, block, quadrant, nblock, lo, hi, d, i, h, left, h == 1, b);
      PermInTrans(start, s, ptr[..], lo, m);
      i := i + 1;
    }
  }

  method SimpleSort(ptr: array<int>, block: seq<byte>, quadrant: seq<int>, nblock: int, lo: int, hi: int, d: nat,
                    budget: int, ghost b: seq<byte>)
    returns (left: int)
    requires nblock == |b| && Extended(b, block) && Quadrants(b, quadrant)
    requires 0 <= lo <= hi + 1 <= ptr.Length && hi - lo + 1 <= 2391484 && Prefix(b, ptr[..], lo, hi, d)
    modifies ptr
    ensures PermIn(old(ptr[..]), ptr[..], lo, hi + 1) && Prefix(b, ptr[..], lo, hi, d) && left <= budget
    ensures left >= 0 ==> Sorted(b, ptr[..], lo, hi)
  {
    var bigN := hi - lo + 1;
    left := budget;
    if bigN < 2 {
      return;
    }
    var hp := TopIncrement(bigN);
    ghost var start, m := ptr[..], hi + 1;
    assert PermIn(start, start, lo, m);
    hide *;
    while hp >= 0
      invariant -1 <= hp <= 12 && left <= budget
      invariant PermIn(start, ptr[..], lo, m) && Prefix(b, ptr[..], lo, hi, d)
      invariant hp == -1 ==> Sorted(b, ptr[..], lo, hi)
    {
      ghost var s := ptr[..];
      var done;
      left, done := Pass(ptr, block, quadrant, nblock, lo, hi, d, Increment(hp), left, b);
      PermInTrans(start, s, ptr[..], lo, m);
      if !done {
        return;
      }
      hp := hp - 1;
    }
  }
}
