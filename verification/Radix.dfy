// The first phase of mainSort: rows bucketed by their first two symbols, from a rolling
// 16-bit pair that is built up from the end of the block.
module Radix {
  import opened Rotations
  import opened Counting
  import opened PairBuckets

  // The pair at i from the pair at i + 1: shift one symbol out, one symbol in.
  function Roll(j: int, c: byte): int {
    j / 256 + 256 * (c as int)
  }

  // Before position i is taken in, j's high symbol is the one after i.
  ghost predicate Rolling(b: seq<byte>, j: int, i: int) {
    0 <= i < |b| && 0 <= j < 65536 && j / 256 == b[Next(i, |b|)]
  }

  lemma RollStart(b: seq<byte>)
    requires b != []
    ensures Rolling(b, b[0] as int * 256, |b| - 1)
  {
  }

  lemma RollStep(b: seq<byte>, j: int, i: int)
    requires Rolling(b, j, i)
    ensures Roll(j, b[i]) == Pair(b, i) == Pairs(b)[i] && 0 <= Pair(b, i) < 65536
    ensures i > 0 ==> Rolling(b, Roll(j, b[i]), i - 1)
  {
  }

  // ftab counts the pairs from i upwards.
  ghost predicate Tallied(keys: seq<int>, f: seq<int>, i: int) {
    && |f| == 65537 && 0 <= i <= |keys| && f[65536] == 0
    && forall v :: 0 <= v < 65536 ==> f[v] == Count(keys, v) - Count(keys[..i], v)
  }

  lemma TalliedStart(keys: seq<int>, f: seq<int>)
    requires |f| == 65537 && forall v :: 0 <= v < 65537 ==> f[v] == 0
    ensures Tallied(keys, f, |keys|)
  {
    assert keys[..|keys|] == keys;
  }

  lemma TalliedStep(keys: seq<int>, f: seq<int>, i: int, down: int, v: int)
    requires Tallied(keys, f, i) && down == i - 1 >= 0 && v == keys[down] && 0 <= v < 65536
    ensures Tallied(keys, f[v := f[v] + 1], down)
  {
    CountStepAll(keys, down);
    hide Count;
  }

  method CountPairs(ftab: array<int>, quadrant: array<int>, block: seq<byte>, nblock: int, ghost b: seq<byte>)
    requires ftab != quadrant && ftab.Length == 65537 && 0 < nblock == |b| <= |block| && nblock <= quadrant.Length
    requires forall k :: 0 <= k < nblock ==> block[k] == b[k]
    modifies ftab, quadrant
    ensures Tallied(Pairs(b), ftab[..], 0)
    ensures forall k :: 0 <= k < nblock ==> quadrant[k] == 0
  {
    ghost var keys := Pairs(b);
    ClearTable(ftab);
    TalliedStart(keys, ftab[..]);
    RollStart(b);
    hide *;
    var j := block[0] as int * 256;
    var i := nblock - 1;
    ghost var up := nblock;
    while i >= 0
      invariant -1 <= i < nblock && up == i + 1 && Tallied(keys, ftab[..], up) && (i >= 0 ==> Rolling(b, j, i))
      invariant forall k :: i < k < nblock ==> quadrant[k] == 0
    {
      quadrant[i] := 0;
      RollStep(b, j, i);
      j := Roll(j, block[i]);
      TalliedStep(keys, ftab[..], up, i, j);
      ftab[j] := ftab[j] + 1;
      up := i;
      i := i - 1;
    }
  }

  method ClearTable(ftab: array<int>)
    requires ftab.Length == 65537
    modifies ftab
    ensures forall v :: 0 <= v < 65537 ==> ftab[v] == 0
  {
    var i := 65536;
    while i >= 0
      invariant -1 <= i <= 65536 && forall v :: i < v < 65537 ==> ftab[v] == 0
    {
      ftab[i] := 0;
      i := i - 1;
    }
  }

  // Running sums: the end of every bucket.
  method SumUp(ftab: array<int>, ghost keys: seq<int>)
    requires ftab.Length == 65537 && Tallied(keys, ftab[..], 0)
    requires forall i :: 0 <= i < |keys| ==> 0 <= keys[i] < 65536
    modifies ftab
    ensures (forall v :: 0 <= v < 65536 ==> ftab[v] == Below(keys, v + 1)) && ftab[65536] == |keys|
  {
    assert keys[..0] == [];
    assert forall v :: 0 <= v < 65536 ==> ftab[..][v] == Count(keys, v);
    BelowEndsIn(keys, 65536);
    BelowStep(keys, 0);
    hide Count, Below, Tallied;
    for i := 1 to 65537
      invariant forall v :: 0 <= v < i && v < 65536 ==> ftab[v] == Below(keys, v + 1)
      invariant forall v :: i <= v < 65536 ==> ftab[v] == Count(keys, v)
      invariant i <= 65536 ==> ftab[65536] == 0
      invariant i == 65537 ==> ftab[65536] == |keys|
    {
      BelowStep(keys, i);
      ftab[i] := ftab[i] + ftab[i - 1];
    }
  }

  // Rows of the positions from i upwards are filled; ftab is the end of what is left.
  ghost predicate Dealt(keys: seq<int>, f: seq<int>, ptr: seq<int>, i: int) {
    && |f| == 65537 && |ptr| == |keys| && 0 <= i <= |keys| && f[65536] == |keys|
    && (forall v :: 0 <= v < 65536 ==> f[v] == Below(keys, v) + Count(keys[..i], v))
    && (forall k :: i <= k < |keys| ==> 0 <= Rank(keys, k) < |keys| && ptr[Rank(keys, k)] == k)
  }

  lemma DealtStart(keys: seq<int>, f: seq<int>, ptr: seq<int>)
    requires |f| == 65537 && |ptr| == |keys| && (forall v :: 0 <= v < 65536 ==> f[v] == Below(keys, v + 1)) && f[65536] == |keys|
    ensures Dealt(keys, f, ptr, |keys|)
  {
    assert keys[..|keys|] == keys;
    forall v | 0 <= v < 65536 ensures f[v] == Below(keys, v) + Count(keys, v) {
      BelowStep(keys, v);
    }
    hide Count, Below, Rank;
  }

  lemma DealtStep(keys: seq<int>, f: seq<int>, ptr: seq<int>, i: int, down: int, v: int)
    requires Dealt(keys, f, ptr, i) && down == i - 1 >= 0 && v == keys[down] && 0 <= v < 65536
    ensures 0 <= f[v] - 1 < |ptr| && Dealt(keys, f[v := f[v] - 1], ptr[f[v] - 1 := down], down)
  {
    CountStepAll(keys, down);
    RankInBucket(keys, down);
    assert f[v] - 1 == Rank(keys, down);
    forall k | i <= k < |keys| ensures Rank(keys, k) != Rank(keys, down) {
      RankDistinct(keys, k, down);
    }
    hide Count, Below, Rank;
  }

  // Every position dealt: the rows are in place and ftab holds the bucket starts.
  lemma DealtDone(b: seq<byte>, f: seq<int>, ptr: seq<int>)
    requires Dealt(Pairs(b), f, ptr, 0)
    ensures InPlace(b, ptr) && forall v :: 0 <= v <= 65536 ==> f[v] == Start(b, v)
  {
    var keys := Pairs(b);
    assert keys[..0] == [];
    forall r | 0 <= r < |b| ensures InRow(b, ptr[r], r) && Rank(keys, ptr[r]) == r {
      var k := RankHitsIn(keys, r, 65536);
      RankInBucket(keys, k);
      hide Count, Below;
    }
    StartEnds(b);
  }

  method DealRows(ftab: array<int>, ptr: array<int>, block: seq<byte>, nblock: int, ghost b: seq<byte>)
    requires ftab != ptr && ftab.Length == 65537 && 0 < nblock == |b| <= |block| && nblock == ptr.Length
    requires forall k :: 0 <= k < nblock ==> block[k] == b[k]
    requires (forall v :: 0 <= v < 65536 ==> ftab[v] == Below(Pairs(b), v + 1)) && ftab[65536] == nblock
    modifies ftab, ptr
    ensures InPlace(b, ptr[..]) && forall v :: 0 <= v <= 65536 ==> ftab[v] == Start(b, v)
  {
    hide *;
    ghost var keys := Pairs(b);
    DealtStart(keys, ftab[..], ptr[..]);
    RollStart(b);
    var s := block[0] as int * 256;
    var i := nblock - 1;
    ghost var up := nblock;
    while i >= 0
      invariant -1 <= i < nblock && up == i + 1 && Dealt(keys, ftab[..], ptr[..], up) && (i >= 0 ==> Rolling(b, s, i))
    {
      RollStep(b, s, i);
      s := Roll(s, block[i]);
      DealtStep(keys, ftab[..], ptr[..], up, i, s);
      var j := ftab[s] - 1;
      ftab[s] := j;
      ptr[j] := i;
      up := i;
      i := i - 1;
    }
    DealtDone(b, ftab[..], ptr[..]);
  }
}
