// Why each pass of fallbackSort doubles the depth to which the rotations are sorted.
module PrefixDoubling {
  import opened Perms
  import opened Rotations

  ghost predicate SortedTo(b: seq<byte>, s: seq<int>, d: nat) {
    IsPerm(s, |b|) && forall p, q :: 0 <= p < q < |b| ==> Cmp(b, s[p], s[q], d) <= 0
  }

  // Row p starts a class: its rotation differs from the row above within d symbols.
  ghost predicate Starts(b: seq<byte>, s: seq<int>, p: int, d: nat)
    requires IsPerm(s, |b|) && 0 <= p < |b|
  {
    p == 0 || Cmp(b, s[p - 1], s[p], d) != 0
  }

  // Sorted to depth d, with the header bits marking exactly the class starts.
  ghost predicate Classes(b: seq<byte>, s: seq<int>, bh: seq<bool>, d: nat) {
    SortedTo(b, s, d) && |bh| >= |b| && forall p :: 0 <= p < |b| ==> (bh[p] <==> Starts(b, s, p, d))
  }

  // Sentinel bits after the block: set, clear, set, clear, ...
  ghost predicate Sentinels(bh: seq<bool>, n: int) {
    0 <= n && n + 64 <= |bh| && forall i :: n <= i < n + 64 ==> (bh[i] <==> (i - n) % 2 == 0)
  }

  lemma {:induction false} NoHeaderTied(b: seq<byte>, s: seq<int>, bh: seq<bool>, d: nat, p: int, q: int)
    requires Classes(b, s, bh, d) && 0 <= p <= q < |b| && forall r :: p < r <= q ==> !bh[r]
    ensures Cmp(b, s[p], s[q], d) == 0
    decreases q - p
  {
    if p == q {
      CmpSelf(b, s[p], d);
    } else {
      NoHeaderTied(b, s, bh, d, p, q - 1);
      assert !Starts(b, s, q, d);
      CmpTrans(b, s[p], s[q - 1], s[q], d);
      CmpAnti(b, s[p], s[q - 1], d);
      CmpAnti(b, s[q - 1], s[q], d);
      CmpTrans(b, s[q], s[q - 1], s[p], d);
      CmpAnti(b, s[q], s[p], d);
    }
  }

  lemma HeaderSplits(b: seq<byte>, s: seq<int>, bh: seq<bool>, d: nat, p: int, r: int, q: int)
    requires Classes(b, s, bh, d) && 0 <= p < r <= q < |b| && bh[r]
    ensures Cmp(b, s[p], s[q], d) < 0
  {
    assert Starts(b, s, r, d);
    CmpSelf(b, s[p], d);
    CmpSelf(b, s[q], d);
    assert Cmp(b, s[r - 1], s[r], d) < 0;
    CmpTrans(b, s[p], s[r - 1], s[r], d);
    CmpTrans(b, s[p], s[r], s[q], d);
  }

  // key orders the positions as the d symbols d places further on order them.
  ghost predicate KeyOfNext(b: seq<byte>, key: seq<int>, d: nat) {
    && |key| == |b| && d <= |b|
    && (forall x :: 0 <= x < |b| ==> 0 <= Shift(x, d, |b|) < |b|)
    && (forall x, y :: 0 <= x < |b| && 0 <= y < |b| ==>
          (key[x] <= key[y] <==> Cmp(b, Shift(x, d, |b|), Shift(y, d, |b|), d) <= 0))
  }

  // start[p] is the last header at or before row p.
  ghost predicate ClassStart(bh: seq<bool>, n: int, start: seq<int>) {
    && |start| == n <= |bh|
    && (forall p :: 0 <= p < n ==> 0 <= start[p] <= p && bh[start[p]] && forall r :: start[p] < r <= p ==> !bh[r])
  }

  lemma ClassStartOrder(b: seq<byte>, s: seq<int>, bh: seq<bool>, d: nat, start: seq<int>, p: int, q: int)
    requires Classes(b, s, bh, d) && ClassStart(bh, |b|, start) && 0 <= p < |b| && 0 <= q < |b|
    ensures start[p] <= start[q] <==> Cmp(b, s[p], s[q], d) <= 0
  {
    CmpAnti(b, s[p], s[q], d);
    if p <= q {
      assert Cmp(b, s[p], s[q], d) <= 0 by {
        CmpSelf(b, s[p], d);
      }
      assert start[p] <= start[q];
    } else if start[p] <= q {
      NoHeaderTied(b, s, bh, d, q, p);
    } else {
      HeaderSplits(b, s, bh, d, q, start[p], p);
    }
  }

  // Each row's class start, written into the position d places back.
  ghost predicate StartsWritten(b: seq<byte>, s: seq<int>, start: seq<int>, key: seq<int>, d: nat) {
    && d <= |b| == |key| == |start| && IsPerm(s, |b|)
    && (forall p :: 0 <= p < |b| ==>
          0 <= Shift(s[p], |b| - d, |b|) < |b| && key[Shift(s[p], |b| - d, |b|)] == start[p])
  }

  lemma KeyAt(b: seq<byte>, s: seq<int>, start: seq<int>, key: seq<int>, d: nat, x: int) returns (p: int)
    requires StartsWritten(b, s, start, key, d) && 0 <= x < |b|
    ensures 0 <= p < |b| && s[p] == Shift(x, d, |b|) && key[x] == start[p]
  {
    var n := |b|;
    p := PermHits(s, n, Shift(x, d, n));
    assert Shift(s[p], n - d, n) == x;
  }

  lemma KeysFromStarts(b: seq<byte>, s: seq<int>, bh: seq<bool>, d: nat, start: seq<int>, key: seq<int>)
    requires Classes(b, s, bh, d) && ClassStart(bh, |b|, start) && StartsWritten(b, s, start, key, d)
    requires d <= |b| == |key| == |start|
    ensures KeyOfNext(b, key, d)
  {
    var n := |b|;
    hide StartsWritten;
    forall x, y | 0 <= x < n && 0 <= y < n
      ensures key[x] <= key[y] <==> Cmp(b, Shift(x, d, n), Shift(y, d, n), d) <= 0
    {
      var p := KeyAt(b, s, start, key, d, x);
      var q := KeyAt(b, s, start, key, d, y);
      ClassStartOrder(b, s, bh, d, start, p, q);
    }
  }

  // ---- refining bucket by bucket ----

  // Rows up to r are refined to depth 2d, the rows after r still stand at depth d, and no
  // class reaches across the boundary.
  ghost predicate Refined(b: seq<byte>, s: seq<int>, bh: seq<bool>, d: nat, r: int) {
    && -1 <= r < |b| < |bh|
    && SortedTo(b, s, d)
    && bh[r + 1]
    && (r + 1 < |b| ==> Starts(b, s, r + 1, d))
    && (forall p :: 0 <= p <= r ==> (bh[p] <==> Starts(b, s, p, 2 * d)))
    && (forall p :: r < p < |b| ==> (bh[p] <==> Starts(b, s, p, d)))
    && (forall p, q :: 0 <= p < q <= r ==> Cmp(b, s[p], s[q], 2 * d) <= 0)
  }

  lemma RefineStart(b: seq<byte>, s: seq<int>, bh: seq<bool>, d: nat)
    requires b != [] && Classes(b, s, bh, d) && |b| < |bh|
    ensures Refined(b, s, bh, d, -1)
  {
    assert Starts(b, s, 0, d);
  }

  lemma RefineEnd(b: seq<byte>, s: seq<int>, bh: seq<bool>, d: nat)
    requires b != [] && Refined(b, s, bh, d, |b| - 1)
    ensures Classes(b, s, bh, 2 * d)
  {
  }

  lemma StartsDeeper(b: seq<byte>, s: seq<int>, p: int, d: nat)
    requires IsPerm(s, |b|) && 0 <= p < |b| && Starts(b, s, p, d)
    ensures Starts(b, s, p, 2 * d)
  {
    if p > 0 {
      CmpExtend(b, s[p - 1], s[p], d, 2 * d);
    }
  }

  lemma StrictDeeper(b: seq<byte>, i: int, j: int, d: nat)
    requires 0 <= i < |b| && 0 <= j < |b| && Cmp(b, i, j, d) < 0
    ensures Cmp(b, i, j, 2 * d) < 0
  {
    CmpExtend(b, i, j, d, 2 * d);
  }

  // Rows on both sides of a class start are strictly apart at depth d.
  lemma AcrossStart(b: seq<byte>, s: seq<int>, d: nat, p: int, r: int, q: int)
    requires SortedTo(b, s, d) && 0 <= p < r <= q < |b| && Starts(b, s, r, d)
    ensures Cmp(b, s[p], s[q], d) < 0
  {
    CmpSelf(b, s[p], d);
    CmpSelf(b, s[q], d);
    assert Cmp(b, s[r - 1], s[r], d) < 0;
    CmpTrans(b, s[p], s[r - 1], s[r], d);
    CmpTrans(b, s[p], s[r], s[q], d);
  }

  // Single-row classes are refined as they stand: the scan may jump over them.
  lemma RefineSkip(b: seq<byte>, s: seq<int>, bh: seq<bool>, d: nat, r: int, l: int)
    requires Refined(b, s, bh, d, r) && r <= l < |b| && forall p :: r < p <= l + 1 ==> bh[p]
    ensures Refined(b, s, bh, d, l)
  {
    forall p | r < p <= l ensures Starts(b, s, p, 2 * d) {
      StartsDeeper(b, s, p, d);
    }
    forall p, q | 0 <= p < q <= l && q > r ensures Cmp(b, s[p], s[q], 2 * d) <= 0 {
      AcrossStart(b, s, d, p, q, q);
      StrictDeeper(b, s[p], s[q], d);
    }
  }

  // [l, r] is one whole class of depth d.
  ghost predicate Bucket(b: seq<byte>, s: seq<int>, d: nat, l: int, r: int) {
    && 0 <= l <= r < |b| && SortedTo(b, s, d)
    && Starts(b, s, l, d) && (r + 1 < |b| ==> Starts(b, s, r + 1, d))
    && (forall p, q :: l <= p <= r && l <= q <= r ==> Cmp(b, s[p], s[q], d) == 0)
  }

  lemma FoundBucket(b: seq<byte>, s: seq<int>, bh: seq<bool>, d: nat, l: int, r: int)
    requires Refined(b, s, bh, d, l - 1) && 0 <= l <= r < |b|
    requires (forall p :: l < p <= r ==> !bh[p]) && (r + 1 < |b| ==> bh[r + 1])
    ensures Bucket(b, s, d, l, r)
  {
    forall p, q | l <= p <= q <= r ensures Cmp(b, s[p], s[q], d) == 0 && Cmp(b, s[q], s[p], d) == 0 {
      TiedRows(b, s, d, p, q);
      CmpAnti(b, s[p], s[q], d);
    }
  }

  lemma {:induction false} TiedRows(b: seq<byte>, s: seq<int>, d: nat, p: int, q: int)
    requires SortedTo(b, s, d) && 0 <= p <= q < |b| && forall r :: p < r <= q ==> !Starts(b, s, r, d)
    ensures Cmp(b, s[p], s[q], d) == 0
    decreases q - p
  {
    if p == q {
      CmpSelf(b, s[p], d);
    } else {
      TiedRows(b, s, d, p, q - 1);
      assert !Starts(b, s, q, d);
      CmpTrans(b, s[p], s[q - 1], s[q], d);
      CmpAnti(b, s[p], s[q - 1], d);
      CmpAnti(b, s[q - 1], s[q], d);
      CmpTrans(b, s[q], s[q - 1], s[p], d);
      CmpAnti(b, s[q], s[p], d);
    }
  }

  // Rearranging a class leaves the depth-d order as it was.
  lemma BucketRearranged(b: seq<byte>, s: seq<int>, t: seq<int>, d: nat, l: int, r: int)
    requires Bucket(b, s, d, l, r) && PermIn(s, t, l, r + 1)
    ensures Bucket(b, t, d, l, r)
    ensures forall p :: 0 <= p < |b| && !(l < p <= r) ==> (Starts(b, t, p, d) <==> Starts(b, s, p, d))
  {
    RowsCompareAsBefore(b, s, t, d, l, r);
    hide Cmp, PermIn;
  }

  lemma RowsCompareAsBefore(b: seq<byte>, s: seq<int>, t: seq<int>, d: nat, l: int, r: int)
    requires Bucket(b, s, d, l, r) && PermIn(s, t, l, r + 1)
    ensures IsPerm(t, |b|)
    ensures forall p, q :: 0 <= p < |b| && 0 <= q < |b| ==> Cmp(b, t[p], t[q], d) == Cmp(b, s[p], s[q], d)
  {
    IsPermKeptIn(s, t, |b|, l, r + 1);
    RowsTied(b, s, t, d, l, r);
    hide PermIn, Bucket, Cmp;
    forall p, q | 0 <= p < |b| && 0 <= q < |b| ensures Cmp(b, t[p], t[q], d) == Cmp(b, s[p], s[q], d) {
      TiedSame(b, t[p], s[p], t[q], s[q], d);
    }
  }

  lemma RowsTied(b: seq<byte>, s: seq<int>, t: seq<int>, d: nat, l: int, r: int)
    requires Bucket(b, s, d, l, r) && PermIn(s, t, l, r + 1) && IsPerm(t, |b|)
    ensures forall p :: 0 <= p < |b| ==> Cmp(b, t[p], s[p], d) == 0
  {
    forall p | 0 <= p < |b| ensures Cmp(b, t[p], s[p], d) == 0 {
      if l <= p <= r {
        var j := PermInFrom(s, t, l, r + 1, p);
      } else {
        CmpSelf(b, s[p], d);
      }
    }
  }

  // Replacing both sides of a comparison by tied rotations does not change it.
  lemma TiedSame(b: seq<byte>, i: int, i': int, j: int, j': int, d: nat)
    requires 0 <= i < |b| && 0 <= i' < |b| && 0 <= j < |b| && 0 <= j' < |b|
    requires Cmp(b, i, i', d) == 0 && Cmp(b, j, j', d) == 0
    ensures Cmp(b, i, j, d) == Cmp(b, i', j', d)
  {
    CmpAnti(b, i, i', d);
    CmpAnti(b, j, j', d);
    CmpAnti(b, i, j, d);
    CmpAnti(b, i', j', d);
    if Cmp(b, i, j, d) <= 0 {
      CmpTrans(b, i', i, j, d);
      CmpTrans(b, i', j, j', d);
    }
    if Cmp(b, i, j, d) >= 0 {
      CmpTrans(b, j', j, i, d);
      CmpTrans(b, j', i, i', d);
    }
  }

  // Within a class, the key decides the next d symbols.
  lemma KeyDecides(b: seq<byte>, key: seq<int>, d: nat, x: int, y: int)
    requires KeyOfNext(b, key, d) && 0 <= x < |b| && 0 <= y < |b| && Cmp(b, x, y, d) == 0
    ensures Cmp(b, x, y, 2 * d) <= 0 <==> key[x] <= key[y]
    ensures Cmp(b, x, y, 2 * d) == 0 <==> key[x] == key[y]
  {
    CmpAdd(b, x, y, d, d);
    CmpAnti(b, Shift(x, d, |b|), Shift(y, d, |b|), d);
  }

  // Sorting one class by key and setting a header wherever the key changes refines it.
  lemma RefineBucket(b: seq<byte>, s: seq<int>, t: seq<int>, bh: seq<bool>, bh': seq<bool>, key: seq<int>, d: nat, l: int, r: int)
    requires Refined(b, s, bh, d, l - 1) && Bucket(b, s, d, l, r) && PermIn(s, t, l, r + 1) && KeyOfNext(b, key, d)
    requires |bh'| == |bh| && forall p :: 0 <= p < |bh| && !(l <= p <= r) ==> bh'[p] == bh[p]
    requires bh[r + 1]
    requires forall p :: l <= p <= r ==> 0 <= t[p] < |b|
    requires forall p, q :: l <= p < q <= r ==> key[t[p]] <= key[t[q]]
    requires bh'[l] && forall p :: l < p <= r ==> (bh'[p] <==> key[t[p - 1]] != key[t[p]])
    ensures Refined(b, t, bh', d, r)
  {
    BucketRearranged(b, s, t, d, l, r);
    forall p | 0 <= p <= r ensures bh'[p] <==> Starts(b, t, p, 2 * d) {
      if p == l {
        StartsDeeper(b, t, p, d);
      } else if l < p {
        KeyDecides(b, key, d, t[p - 1], t[p]);
      }
    }
    forall p, q | 0 <= p < q <= r ensures Cmp(b, t[p], t[q], 2 * d) <= 0 {
      if p < l <= q {
        AcrossStart(b, t, d, p, l, q);
        StrictDeeper(b, t[p], t[q], d);
      } else if l <= p {
        KeyDecides(b, key, d, t[p], t[q]);
      }
    }
  }

  // ---- the end ----

  // Once the depth has passed the block length, the order is the rotation order.
  lemma DeepEnough(b: seq<byte>, s: seq<int>, d: nat)
    requires SortedTo(b, s, d) && d >= |b|
    ensures SortedOrder(b, s)
  {
    forall p, q | 0 <= p < q < |b| ensures Cmp(b, s[p], s[q], |b|) <= 0 {
      CmpFull(b, s[p], s[q], d);
    }
  }

  // If every class has a single row, the order is final at any depth.
  lemma AllSingle(b: seq<byte>, s: seq<int>, d: nat)
    requires SortedTo(b, s, d) && d <= |b| && forall p :: 0 <= p < |b| ==> Starts(b, s, p, d)
    ensures SortedOrder(b, s)
  {
    forall p, q | 0 <= p < q < |b| ensures Cmp(b, s[p], s[q], |b|) <= 0 {
      AcrossStart(b, s, d, p, q, q);
      CmpExtend(b, s[p], s[q], d, |b|);
    }
  }
}
