// The order in which mainSort takes the big buckets: a shell sort by bucket size.
module RunningOrder {
  import opened Perms

  // Entries 0..255 sorted by their size.
  ghost predicate BySize(size: seq<int>, ro: seq<int>, hi: int) {
    && |size| == 256 == |ro| && (forall k :: 0 <= k < 256 ==> 0 <= ro[k] < 256)
    && (forall p, q :: 0 <= p < q < hi <= 256 ==> size[ro[p]] <= size[ro[q]])
  }

  // vv waits to be put into the hole at j; with track, the rest up to i is sorted.
  ghost predicate Hole(size: seq<int>, ro: seq<int>, vv: int, j: int, i: int, track: bool) {
    && |size| == 256 == |ro| && 0 <= j <= i < 256 && IsPerm(ro[j := vv], 256)
    && (track ==> Around(size, ro[j := vv], j, i))
  }

  // Sorted up to i but for entry j, which is not above what follows it.
  ghost predicate Around(size: seq<int>, cur: seq<int>, j: int, i: int)
    requires |size| == 256 == |cur| && (forall k :: 0 <= k < 256 ==> 0 <= cur[k] < 256) && 0 <= j <= i < 256
  {
    && (forall p, q :: 0 <= p < q <= i && p != j && q != j ==> size[cur[p]] <= size[cur[q]])
    && (forall q :: j < q <= i ==> size[cur[j]] <= size[cur[q]])
  }

  lemma HoleStart(size: seq<int>, ro: seq<int>, i: int, track: bool)
    requires |size| == 256 && IsPerm(ro, 256) && 0 <= i < 256 && (track ==> BySize(size, ro, i))
    ensures Hole(size, ro, ro[i], i, i, track)
  {
    assert ro[i := ro[i]] == ro;
  }

  lemma HoleStep(size: seq<int>, ro: seq<int>, vv: int, j: int, i: int, track: bool, at: int)
    requires Hole(size, ro, vv, j, i, track) && 0 <= at < j && (track ==> at == j - 1)
    requires 0 <= ro[at] < 256 && 0 <= vv < 256 && size[ro[at]] > size[vv]
    ensures Hole(size, ro[j := ro[at]], vv, at, i, track)
  {
    var cur, next := ro[j := vv], ro[j := ro[at]][at := vv];
    assert next == cur[j := cur[at]][at := cur[j]];
    forall p, q | 0 <= p < q < 256 ensures next[p] != next[q] {
      var p0, q0 := if p == at then j else if p == j then at else p, if q == at then j else if q == j then at else q;
      assert next[p] == cur[p0] && next[q] == cur[q0];
    }
  }

  lemma HoleRead(size: seq<int>, ro: seq<int>, vv: int, j: int, i: int, track: bool, at: int)
    requires Hole(size, ro, vv, j, i, track) && 0 <= at < j
    ensures 0 <= ro[at] < 256 && 0 <= vv < 256
  {
    var cur := ro[j := vv];
    assert cur[at] == ro[at] && cur[j] == vv;
  }

  lemma HoleEnd(size: seq<int>, ro: seq<int>, vv: int, j: int, i: int, track: bool)
    requires Hole(size, ro, vv, j, i, track)
    requires track && j > 0 ==> 0 <= ro[j - 1] < 256 && 0 <= vv < 256 && size[ro[j - 1]] <= size[vv]
    ensures IsPerm(ro[j := vv], 256) && (track ==> BySize(size, ro[j := vv], i + 1))
  {
    var cur := ro[j := vv];
    if track {
      forall p, q | 0 <= p < q < i + 1 ensures size[cur[p]] <= size[cur[q]] {
        if q == j && p < j - 1 {
          assert size[cur[p]] <= size[cur[j - 1]];
        }
      }
    }
  }

  method FindPlace(ro: array<int>, size: seq<int>, i: int, h: int, vv: int, ghost track: bool) returns (j: int)
    requires ro.Length == 256 && 1 <= h <= i < 256 && Hole(size, ro[..], vv, i, i, track) && (track ==> h == 1)
    modifies ro
    ensures 0 <= j < 256 && IsPerm(ro[..][j := vv], 256) && (track ==> BySize(size, ro[..][j := vv], i + 1))
  {
    j := i;
    assert |size| == 256;
    hide *;
    while true
      invariant h <= j <= i && Hole(size, ro[..], vv, j, i, track)
      decreases j
    {
      var at := j - h;
      HoleRead(size, ro[..], vv, j, i, track, at);
      if !(size[ro[at]] > size[vv]) {
        HoleEnd(size, ro[..], vv, j, i, track);
        return;
      }
      HoleStep(size, ro[..], vv, j, i, track, at);
      ro[j] := ro[at];
      j := at;
      if j <= h - 1 {
        HoleEnd(size, ro[..], vv, j, i, track);
        return;
      }
    }
  }

  // The buckets from the least to the most full.
  method SortBuckets(ro: array<int>, size: seq<int>)
    requires ro.Length == 256 && |size| == 256 && forall k :: 0 <= k < 256 ==> ro[k] == k
    modifies ro
    ensures IsPerm(ro[..], 256) && BySize(size, ro[..], 256)
  {
    var h := 1;
    h := 3 * h + 1;
    while h <= 256
      invariant h == 4 || h == 13 || h == 40 || h == 121 || h == 364
      decreases 1024 - h
    {
      h := 3 * h + 1;
    }
    assert IsPerm(ro[..], 256);
    hide *;
    while true
      invariant (h == 364 || h == 121 || h == 40 || h == 13 || h == 4) && IsPerm(ro[..], 256)
      decreases h
    {
      h := h / 3;
      OnePass(ro, size, h);
      if !(h != 1) {
        break;
      }
    }
  }

  method OnePass(ro: array<int>, size: seq<int>, h: int)
    requires ro.Length == 256 && |size| == 256 && 1 <= h && IsPerm(ro[..], 256)
    modifies ro
    ensures IsPerm(ro[..], 256) && (h == 1 ==> BySize(size, ro[..], 256))
  {
    OneSorted(size, ro[..]);
    hide *;
    var i := h;
    while i <= 255
      invariant h <= i && IsPerm(ro[..], 256) && (h == 1 ==> i <= 256 && BySize(size, ro[..], i))
    {
      var vv := ro[i];
      ghost var track := h == 1;
      HoleStart(size, ro[..], i, track);
      var j := FindPlace(ro, size, i, h, vv, track);
      ro[j] := vv;
      i := i + 1;
    }
  }

  lemma OneSorted(size: seq<int>, ro: seq<int>)
    requires |size| == 256 && IsPerm(ro, 256)
    ensures BySize(size, ro, 1)
  {
  }
}
