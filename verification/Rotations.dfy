// The order both sorting engines must produce: the rotations of a block compared
// lexicographically as circular strings.  Positions stay inside the block and wrap with
// Next and Shift, so no modulo arithmetic is needed.
module Rotations {
  import opened Perms

  type byte = x: int | 0 <= x < 256

  function Next(i: int, n: int): int {
    if i + 1 == n then 0 else i + 1
  }

  function Prev(i: int, n: int): int {
    if i == 0 then n - 1 else i - 1
  }

  function Shift(i: int, d: int, n: int): int {
    if i + d < n then i + d else i + d - n
  }

  // -1, 0 or 1 as the first d symbols from i, read circularly, are below, equal to or
  // above those from j.
  function Cmp(b: seq<byte>, i: int, j: int, d: nat): (r: int)
    requires 0 <= i < |b| && 0 <= j < |b|
    ensures -1 <= r <= 1
    decreases d
  {
    if d == 0 then 0
    else if b[i] < b[j] then -1
    else if b[i] > b[j] then 1
    else Cmp(b, Next(i, |b|), Next(j, |b|), d - 1)
  }

  // s lists the rotations of b in non-decreasing order (equal rotations in any order).
  ghost predicate SortedOrder(b: seq<byte>, s: seq<int>) {
    && IsPerm(s, |b|)
    && (forall p, q :: 0 <= p < q < |b| ==> Cmp(b, s[p], s[q], |b|) <= 0)
  }

  lemma {:induction false} CmpAnti(b: seq<byte>, i: int, j: int, d: nat)
    requires 0 <= i < |b| && 0 <= j < |b|
    ensures Cmp(b, j, i, d) == -Cmp(b, i, j, d)
    decreases d
  {
    if d > 0 && b[i] == b[j] {
      CmpAnti(b, Next(i, |b|), Next(j, |b|), d - 1);
    }
  }

  lemma {:induction false} CmpSelf(b: seq<byte>, i: int, d: nat)
    requires 0 <= i < |b|
    ensures Cmp(b, i, i, d) == 0
    decreases d
  {
    if d > 0 {
      CmpSelf(b, Next(i, |b|), d - 1);
    }
  }

  lemma {:induction false} CmpTrans(b: seq<byte>, i: int, j: int, k: int, d: nat)
    requires 0 <= i < |b| && 0 <= j < |b| && 0 <= k < |b|
    requires Cmp(b, i, j, d) <= 0 && Cmp(b, j, k, d) <= 0
    ensures Cmp(b, i, k, d) <= 0
    ensures Cmp(b, i, j, d) < 0 || Cmp(b, j, k, d) < 0 ==> Cmp(b, i, k, d) < 0
    decreases d
  {
    if d > 0 && b[i] == b[j] == b[k] {
      CmpTrans(b, Next(i, |b|), Next(j, |b|), Next(k, |b|), d - 1);
    }
  }

  // Comparing d + e symbols is comparing d and then, on a tie, the e that follow.
  lemma {:induction false} CmpAdd(b: seq<byte>, i: int, j: int, d: nat, e: nat)
    requires 0 <= i < |b| && 0 <= j < |b| && d <= |b|
    ensures 0 <= Shift(i, d, |b|) < |b| && 0 <= Shift(j, d, |b|) < |b|
    ensures Cmp(b, i, j, d + e) ==
            if Cmp(b, i, j, d) != 0 then Cmp(b, i, j, d)
            else Cmp(b, Shift(i, d, |b|), Shift(j, d, |b|), e)
    decreases d
  {
    if d > 0 && b[i] == b[j] {
      var n := |b|;
      CmpAdd(b, Next(i, n), Next(j, n), d - 1, e);
      assert Shift(Next(i, n), d - 1, n) == Shift(i, d, n);
      assert Shift(Next(j, n), d - 1, n) == Shift(j, d, n);
    }
  }

  lemma {:induction false} CmpExtend(b: seq<byte>, i: int, j: int, d: nat, e: nat)
    requires 0 <= i < |b| && 0 <= j < |b| && d <= e && Cmp(b, i, j, d) != 0
    ensures Cmp(b, i, j, e) == Cmp(b, i, j, d)
    decreases d
  {
    if d > 0 && b[i] == b[j] {
      CmpExtend(b, Next(i, |b|), Next(j, |b|), d - 1, e - 1);
    }
  }

  lemma {:induction false} CmpFullZero(b: seq<byte>, i: int, j: int, e: nat)
    requires 0 <= i < |b| && 0 <= j < |b| && Cmp(b, i, j, |b|) == 0
    ensures Cmp(b, i, j, e) == 0
  {
    if e >= |b| {
      CmpAdd(b, i, j, |b|, e - |b|);
      CmpFullZero(b, i, j, e - |b|);
    } else if Cmp(b, i, j, e) != 0 {
      CmpExtend(b, i, j, e, |b|);
    }
  }

  // Once the whole block has been compared, looking further changes nothing.
  lemma CmpFull(b: seq<byte>, i: int, j: int, e: nat)
    requires 0 <= i < |b| && 0 <= j < |b| && e >= |b|
    ensures Cmp(b, i, j, e) == Cmp(b, i, j, |b|)
  {
    if Cmp(b, i, j, |b|) == 0 {
      CmpFullZero(b, i, j, e);
    } else {
      CmpExtend(b, i, j, |b|, e);
    }
  }

  // Putting equal symbols in front of two rotations keeps their order.
  lemma CmpPrepend(b: seq<byte>, i: int, j: int)
    requires 0 <= i < |b| && 0 <= j < |b|
    requires b[Prev(i, |b|)] == b[Prev(j, |b|)]
    ensures Cmp(b, Prev(i, |b|), Prev(j, |b|), |b|) == Cmp(b, i, j, |b|)
  {
    var n := |b|;
    assert Next(Prev(i, n), n) == i && Next(Prev(j, n), n) == j;
    CmpFull(b, Prev(i, n), Prev(j, n), n + 1);
  }

  // ---- the same order on the rotated strings themselves ----

  function Rotation(b: seq<byte>, i: int): seq<byte>
    requires 0 <= i < |b|
  {
    b[i..] + b[..i]
  }

  // x is below y at its first difference, position k.
  ghost predicate LessAt(x: seq<byte>, y: seq<byte>, k: int) {
    0 <= k < |x| && k < |y| && x[..k] == y[..k] && x[k] < y[k]
  }

  lemma {:induction false} CmpZeroPrefix(b: seq<byte>, i: int, j: int, d: nat)
    requires 0 <= i < |b| && 0 <= j < |b| && d <= |b|
    ensures Cmp(b, i, j, d) == 0 <==> Rotation(b, i)[..d] == Rotation(b, j)[..d]
    decreases d
  {
    if d > 0 {
      var n, x, y := |b|, Rotation(b, i), Rotation(b, j);
      CmpZeroPrefix(b, i, j, d - 1);
      CmpAdd(b, i, j, d - 1, 1);
      assert x[d - 1] == b[Shift(i, d - 1, n)] && y[d - 1] == b[Shift(j, d - 1, n)];
      assert x[..d] == x[..d - 1] + [x[d - 1]] && y[..d] == y[..d - 1] + [y[d - 1]];
      assert Cmp(b, Shift(i, d - 1, n), Shift(j, d - 1, n), 1) == 0 <==> x[d - 1] == y[d - 1];
    }
  }

  lemma {:induction false} FirstDifference(b: seq<byte>, i: int, j: int, d: nat) returns (k: nat)
    requires 0 <= i < |b| && 0 <= j < |b| && d <= |b| && Cmp(b, i, j, d) < 0
    ensures LessAt(Rotation(b, i), Rotation(b, j), k)
    decreases d
  {
    if Cmp(b, i, j, d - 1) < 0 {
      k := FirstDifference(b, i, j, d - 1);
    } else {
      var n := |b|;
      k := d - 1;
      CmpAdd(b, i, j, k, 1);
      CmpZeroPrefix(b, i, j, k);
      assert Rotation(b, i)[k] == b[Shift(i, k, n)] && Rotation(b, j)[k] == b[Shift(j, k, n)];
    }
  }

  // Cmp over the whole block is the lexicographic order of the rotated strings.
  lemma CmpIsLexicographic(b: seq<byte>, i: int, j: int)
    requires 0 <= i < |b| && 0 <= j < |b|
    ensures Cmp(b, i, j, |b|) == 0 <==> Rotation(b, i) == Rotation(b, j)
    ensures Cmp(b, i, j, |b|) < 0 <==> exists k :: LessAt(Rotation(b, i), Rotation(b, j), k)
  {
    var n, x, y := |b|, Rotation(b, i), Rotation(b, j);
    CmpZeroPrefix(b, i, j, n);
    assert x[..n] == x && y[..n] == y;
    if Cmp(b, i, j, n) < 0 {
      var k := FirstDifference(b, i, j, n);
    }
    if k :| LessAt(x, y, k) {
      CmpZeroPrefix(b, i, j, k);
      CmpAdd(b, i, j, k, 1);
      assert x[k] == b[Shift(i, k, n)] && y[k] == b[Shift(j, k, n)];
      CmpExtend(b, i, j, k + 1, n);
    }
  }

  // ---- uniqueness of the sorted order, up to equal rotations ----

  lemma {:induction false} Pigeonhole(s: seq<int>, n: nat)
    requires forall k :: 0 <= k < |s| ==> 0 <= s[k] < n
    requires forall i, j :: 0 <= i < j < |s| ==> s[i] != s[j]
    ensures |s| <= n
    decreases n
  {
    if s != [] {
      assert 0 <= s[0] < n;
      if k :| 0 <= k < |s| && s[k] == n - 1 {
        Pigeonhole(s[..k] + s[k + 1..], n - 1);
      } else {
        Pigeonhole(s, n - 1);
      }
    }
  }

  // Every number below n is listed by a permutation.
  lemma PermHits(s: seq<int>, n: nat, v: int) returns (k: int)
    requires IsPerm(s, n) && 0 <= v < n
    ensures 0 <= k < n && s[k] == v
  {
    if v !in s {
      Pigeonhole(s + [v], n);
    }
    k :| 0 <= k < n && s[k] == v;
  }

  lemma RowNotBelow(b: seq<byte>, s: seq<int>, t: seq<int>, p: int)
    requires SortedOrder(b, s) && SortedOrder(b, t) && 0 <= p < |b|
    ensures Cmp(b, s[p], t[p], |b|) >= 0
  {
    var n := |b|;
    if Cmp(b, s[p], t[p], n) < 0 {
      var u := s[..p + 1] + t[p..];
      forall i, j | 0 <= i < j < |u| ensures u[i] != u[j] {
        if i <= p < j {
          var q := j - 1;
          assert u[i] == s[i] && u[j] == t[q];
          CmpSelf(b, s[p], n);
          CmpSelf(b, t[p], n);
          CmpTrans(b, s[i], s[p], t[p], n);
          CmpTrans(b, s[i], t[p], t[q], n);
          CmpSelf(b, s[i], n);
        }
      }
      Pigeonhole(u, n);
    }
  }

  // Two sorted orders of one block hold equal rotations row by row.
  lemma SortedOrdersAgree(b: seq<byte>, s: seq<int>, t: seq<int>, p: int)
    requires SortedOrder(b, s) && SortedOrder(b, t) && 0 <= p < |b|
    ensures Cmp(b, s[p], t[p], |b|) == 0
  {
    RowNotBelow(b, s, t, p);
    RowNotBelow(b, t, s, p);
    CmpAnti(b, s[p], t[p], |b|);
  }

  // The symbols just before each sorted rotation: what the block's encoder sends.
  function LastColumn(b: seq<byte>, s: seq<int>): (c: seq<byte>)
    requires |s| == |b| && forall p :: 0 <= p < |s| ==> 0 <= s[p] < |b|
  {
    seq(|b|, p requires 0 <= p < |b| => b[Prev(s[p], |b|)])
  }

  // Whichever engine sorts the block, the last column and the rotation in the row of
  // rotation 0 come out the same.
  lemma LastColumnUnique(b: seq<byte>, s: seq<int>, t: seq<int>)
    requires SortedOrder(b, s) && SortedOrder(b, t)
    ensures LastColumn(b, s) == LastColumn(b, t)
  {
    var n := |b|;
    forall p | 0 <= p < n ensures LastColumn(b, s)[p] == LastColumn(b, t)[p] {
      SortedOrdersAgree(b, s, t, p);
      CmpIsLexicographic(b, s[p], t[p]);
      assert Rotation(b, s[p])[n - 1] == b[Prev(s[p], n)];
      assert Rotation(b, t[p])[n - 1] == b[Prev(t[p], n)];
    }
  }

  // ... and the rows the two engines would transmit as the start row hold one rotation.
  lemma StartRowsAgree(b: seq<byte>, s: seq<int>, t: seq<int>, p: int, q: int)
    requires SortedOrder(b, s) && SortedOrder(b, t)
    requires 0 <= p < |b| && 0 <= q < |b| && s[p] == 0 && t[q] == 0
    ensures Rotation(b, t[p]) == b && Rotation(b, s[q]) == b
  {
    SortedOrdersAgree(b, s, t, p);
    SortedOrdersAgree(b, s, t, q);
    CmpIsLexicographic(b, s[p], t[p]);
    CmpIsLexicographic(b, s[q], t[q]);
  }

  // No proper rotation of the block is the block itself.
  predicate Aperiodic(b: seq<byte>) {
    forall i :: 0 < i < |b| ==> Rotation(b, i) != b
  }

  // Every sorted order has rotation 0 in the same row, so every engine transmits the same.
  ghost predicate OneStream(b: seq<byte>) {
    forall s, t, p, q :: SortedOrder(b, s) && SortedOrder(b, t) && 0 <= p < |b| && 0 <= q < |b| && s[p] == 0 && t[q] == 0
      ==> p == q && LastColumn(b, s) == LastColumn(b, t)
  }

  // The engines must give one stream exactly for aperiodic blocks.
  lemma OneStreamIffAperiodic(b: seq<byte>, s: seq<int>)
    requires b != [] && SortedOrder(b, s)
    ensures OneStream(b) <==> Aperiodic(b)
  {
    if Aperiodic(b) {
      forall u, t, p, q | SortedOrder(b, u) && SortedOrder(b, t) && 0 <= p < |b| && 0 <= q < |b| && u[p] == 0 && t[q] == 0
        ensures p == q && LastColumn(b, u) == LastColumn(b, t)
      {
        StartRowsAgree(b, u, t, p, q);
        LastColumnUnique(b, u, t);
        assert t[p] == 0;
      }
    }
    if i :| 0 < i < |b| && Rotation(b, i) == b {
      var t, p, q := PeriodSwapped(b, s, i);
      assert SortedOrder(b, s) && SortedOrder(b, t) && s[p] == 0 && t[q] == 0 && p != q;
    }
  }

  // On a periodic block the row of rotation 0 can be exchanged with another one.
  lemma PeriodSwapped(b: seq<byte>, s: seq<int>, i: int) returns (t: seq<int>, p: int, q: int)
    requires SortedOrder(b, s) && 0 < i < |b| && Rotation(b, i) == b
    ensures SortedOrder(b, t) && 0 <= p < |b| && 0 <= q < |b| && p != q && s[p] == 0 && t[q] == 0
  {
    var n := |b|;
    p := PermHits(s, n, 0);
    q := PermHits(s, n, i);
    t := s[p := i][q := 0];
    assert Rotation(b, 0) == b;
    CmpIsLexicographic(b, i, 0);
    CmpIsLexicographic(b, 0, i);
    hide Rotation;
    forall j, k | 0 <= j < k < n ensures Cmp(b, t[j], t[k], n) <= 0 {
      CmpSelf(b, s[j], n);
      CmpSelf(b, s[k], n);
      assert Cmp(b, t[j], s[j], n) == 0 && Cmp(b, s[k], t[k], n) == 0;
      CmpTrans(b, t[j], s[j], s[k], n);
      CmpTrans(b, t[j], s[k], t[k], n);
    }
  }

  // The smallest block the engines may transmit differently: [0, 1] and [1, 0] are both
  // sorted orders of two equal symbols.
  lemma TwoStreams()
    ensures SortedOrder([7, 7], [0, 1]) && SortedOrder([7, 7], [1, 0]) && !OneStream([7, 7])
  {
    var b: seq<byte> := [7, 7];
    assert SortedOrder(b, [0, 1]) && SortedOrder(b, [1, 0]);
    assert [0, 1][0] == 0 && [1, 0][1] == 0;
  }
}
