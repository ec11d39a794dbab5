// The 65536 small buckets of mainSort: rows sorted by their first two symbols.
module PairBuckets {
  import opened Perms
  import opened Rotations
  import opened Counting
  import opened MainSimpleSort

  function Pair(b: seq<byte>, i: int): int
    requires 0 <= i < |b|
  {
    256 * (b[i] as int) + b[Next(i, |b|)]
  }

  ghost function Pairs(b: seq<byte>): (p: seq<int>)
    ensures |p| == |b| && forall i :: 0 <= i < |b| ==> p[i] == Pair(b, i) && 0 <= p[i] < 65536
  {
    seq(|b|, i requires 0 <= i < |b| => Pair(b, i))
  }

  // First row of small bucket v.
  ghost function Start(b: seq<byte>, v: int): (r: int)
    ensures 0 <= r <= |b|
  {
    Below(Pairs(b), v)
  }

  lemma StartMonotone(b: seq<byte>, v: int, w: int)
    requires v <= w
    ensures Start(b, v) <= Start(b, w)
  {
    BelowMonotone(Pairs(b), v, w);
  }

  lemma StartEnds(b: seq<byte>)
    ensures Start(b, 0) == 0 && Start(b, 65536) == |b|
  {
    BelowEndsIn(Pairs(b), 65536);
  }

  lemma BucketSize(b: seq<byte>, v: int)
    ensures Start(b, v + 1) == Start(b, v) + Count(Pairs(b), v)
  {
    BelowStep(Pairs(b), v);
  }

  // Row r lies in the bucket of the pair standing there.
  ghost predicate InRow(b: seq<byte>, x: int, r: int) {
    0 <= x < |b| && Start(b, Pair(b, x)) <= r < Start(b, Pair(b, x) + 1)
  }

  ghost predicate InPlace(b: seq<byte>, s: seq<int>) {
    IsPerm(s, |b|) && forall r :: 0 <= r < |b| ==> InRow(b, s[r], r)
  }

  // The rows of one bucket hold exactly its pair.
  lemma RowPair(b: seq<byte>, x: int, r: int, v: int)
    requires InRow(b, x, r)
    ensures Start(b, v) <= r < Start(b, v + 1) <==> Pair(b, x) == v
  {
    hide Start;
    var w := Pair(b, x);
    if w < v {
      StartMonotone(b, w + 1, v);
    } else if v < w {
      StartMonotone(b, v + 1, w);
    }
  }

  lemma RowFrom(b: seq<byte>, x: int, r: int, v: int)
    requires InRow(b, x, r)
    ensures Start(b, v) <= r <==> v <= Pair(b, x)
  {
    hide Start;
    var w := Pair(b, x);
    if w < v {
      StartMonotone(b, w + 1, v);
    } else {
      StartMonotone(b, v, w);
    }
  }

  ghost predicate BucketSorted(b: seq<byte>, s: seq<int>, v: int) {
    Sorted(b, s, Start(b, v), Start(b, v + 1) - 1)
  }

  lemma PairAgrees(b: seq<byte>, x: int, y: int)
    requires 0 <= x < |b| && 0 <= y < |b|
    ensures Pair(b, x) == Pair(b, y) ==> Cmp(b, x, y, 2) == 0 && b[x] == b[y] && b[Next(x, |b|)] == b[Next(y, |b|)]
    ensures Pair(b, x) < Pair(b, y) && |b| >= 2 ==> Le(b, x, y)
  {
    var n := |b|;
    assert 0 <= Next(x, n) < n && 0 <= Next(y, n) < n;
    assert Cmp(b, x, y, 2) == if b[x] < b[y] then -1 else if b[x] > b[y] then 1 else Cmp(b, Next(x, n), Next(y, n), 1);
    assert Cmp(b, Next(x, n), Next(y, n), 1) == if b[Next(x, n)] < b[Next(y, n)] then -1 else if b[Next(x, n)] > b[Next(y, n)] then 1 else 0;
    if Pair(b, x) < Pair(b, y) && n >= 2 {
      CmpExtend(b, x, y, 2, n);
    }
  }

  // Rows in place and every bucket sorted: the whole is sorted.
  lemma BucketsSorted(b: seq<byte>, s: seq<int>)
    requires |b| >= 2 && InPlace(b, s) && forall v :: 0 <= v < 65536 ==> BucketSorted(b, s, v)
    ensures SortedOrder(b, s)
  {
    forall p, q | 0 <= p < q < |b| ensures Cmp(b, s[p], s[q], |b|) <= 0 {
      assert InRow(b, s[p], p) && InRow(b, s[q], q);
      var v := Pair(b, s[p]);
      if v == Pair(b, s[q]) {
        assert BucketSorted(b, s, v);
        assert Le(b, s[p], s[q]);
      } else {
        PairOrder(b, s, p, q);
      }
    }
  }

  lemma PairOrder(b: seq<byte>, s: seq<int>, p: int, q: int)
    requires |b| >= 2 && 0 <= p < q < |b| == |s| && InRow(b, s[p], p) && InRow(b, s[q], q) && Pair(b, s[p]) != Pair(b, s[q])
    ensures Le(b, s[p], s[q])
  {
    var v, w := Pair(b, s[p]), Pair(b, s[q]);
    if w < v {
      StartMonotone(b, w + 1, v);
    }
    PairAgrees(b, s[p], s[q]);
  }

  lemma MembersOfNone(keys: seq<int>, list: seq<int>)
    requires forall i :: 0 <= i < |list| ==> 0 <= list[i] < |keys|
    ensures list != [] ==> keys != []
  {
    if list != [] {
      assert 0 <= list[0] < |keys|;
    }
  }

  // A list of distinct positions that all carry v.
  ghost predicate Picks(keys: seq<int>, v: int, list: seq<int>) {
    && (forall i :: 0 <= i < |list| ==> 0 <= list[i] < |keys| && keys[list[i]] == v)
    && (forall i, j :: 0 <= i < j < |list| ==> list[i] != list[j])
  }

  ghost predicate PicksAll(keys: seq<int>, v: int, list: seq<int>) {
    forall x :: 0 <= x < |keys| && keys[x] == v ==> x in list
  }

  function Without(list: seq<int>, k: int): seq<int>
    requires 0 <= k < |list|
  {
    list[..k] + list[k + 1..]
  }

  lemma PicksShorter(keys: seq<int>, v: int, list: seq<int>, k: int, m: int)
    requires Picks(keys, v, list) && 0 <= k < |list| && list[k] == m == |keys| - 1
    ensures Picks(keys[..m], v, Without(list, k))
    ensures PicksAll(keys, v, list) ==> PicksAll(keys[..m], v, Without(list, k))
  {
    var rest := Without(list, k);
    assert forall i :: 0 <= i < |rest| ==> rest[i] == list[if i < k then i else i + 1];
    if PicksAll(keys, v, list) {
      forall x | 0 <= x < m && keys[..m][x] == v ensures x in rest {
        assert keys[x] == v;
        var i :| 0 <= i < |list| && list[i] == x;
        assert rest[if i < k then i else i - 1] == x;
      }
    }
  }

  lemma PicksSame(keys: seq<int>, v: int, list: seq<int>, m: int)
    requires Picks(keys, v, list) && m == |keys| - 1 >= 0 && m !in list
    ensures Picks(keys[..m], v, list)
    ensures PicksAll(keys, v, list) ==> PicksAll(keys[..m], v, list) && keys[m] != v
  {
  }

  // Distinct positions of one pair are at most as many as its bucket has rows, and exactly
  // as many when none is missing.
  lemma {:induction false} Members(keys: seq<int>, v: int, list: seq<int>)
    requires Picks(keys, v, list)
    ensures |list| <= Count(keys, v)
    ensures PicksAll(keys, v, list) ==> |list| == Count(keys, v)
    decreases |keys|
  {
    MembersOfNone(keys, list);
    if keys != [] {
      var m := |keys| - 1;
      if m in list {
        var k :| 0 <= k < |list| && list[k] == m;
        PicksShorter(keys, v, list, k, m);
        assert keys[m] == v;
        hide Picks, PicksAll;
        Members(keys[..m], v, Without(list, k));
      } else {
        PicksSame(keys, v, list, m);
        hide Picks, PicksAll;
        Members(keys[..m], v, list);
      }
    }
  }
}
