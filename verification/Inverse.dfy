// Undoing the Burrows-Wheeler transform: what the received column and start row mean,
// and why following the inverse of the column's stable sort spells the block.
module Inverse {
  import opened Rotations
  import opened Counting

  // Where k steps along u lead.
  function Walk(u: seq<int>, start: int, k: nat): (r: int)
    requires forall i :: 0 <= i < |u| ==> 0 <= u[i] < |u|
    requires 0 <= start < |u|
    ensures 0 <= r < |u|
  {
    if k == 0 then start else u[Walk(u, start, k - 1)]
  }

  // The k-th symbol the decoder extracts from a column when it starts in row orig.
  ghost function Symbol(col: seq<byte>, u: seq<int>, orig: int, k: nat): byte
    requires |u| == |col| && forall i :: 0 <= i < |u| ==> 0 <= u[i] < |u|
    requires 0 <= orig < |u|
  {
    col[Walk(u, orig, k + 1)]
  }

  // Prefixing every rotation, in the stable order of the prefixed symbols, sorts again.
  lemma PrefixedOrderSorted(b: seq<byte>, s: seq<int>, u: seq<int>, t: seq<int>)
    requires b != [] && SortedOrder(b, s) && IsUnrank(LastColumn(b, s), u)
    requires |t| == |b| && forall r :: 0 <= r < |b| ==> 0 <= u[r] < |b| && t[r] == Prev(s[u[r]], |b|)
    ensures SortedOrder(b, t)
  {
    var n, col := |b|, LastColumn(b, s);
    UnrankIsPerm(col, u);
    forall p, q | 0 <= p < q < n ensures t[p] != t[q] && Cmp(b, t[p], t[q], n) <= 0 {
      UnrankRow(col, u, p);
      UnrankRow(col, u, q);
      RankOrders(col, u[p], u[q]);
      assert b[t[p]] == col[u[p]] && b[t[q]] == col[u[q]];
      assert u[p] != u[q] && s[u[p]] != s[u[q]];
      if b[t[p]] == b[t[q]] {
        assert u[p] < u[q];
        CmpPrepend(b, s[u[p]], s[u[q]]);
      }
    }
  }

  // Row r of the sorted order starts where the rotation in row u[r], stepped back by one, starts:
  // equal as strings, even when the block is periodic and rotations tie.
  lemma StepBack(b: seq<byte>, s: seq<int>, u: seq<int>, r: int)
    requires b != [] && SortedOrder(b, s) && IsUnrank(LastColumn(b, s), u) && 0 <= r < |b|
    ensures 0 <= u[r] < |b| && Cmp(b, Prev(s[u[r]], |b|), s[r], |b|) == 0
  {
    UnrankIsPerm(LastColumn(b, s), u);
    var t := seq(|b|, q requires 0 <= q < |b| => Prev(s[u[q]], |b|));
    PrefixedOrderSorted(b, s, u, t);
    SortedOrdersAgree(b, t, s, r);
  }

  lemma CmpZeroNext(b: seq<byte>, i: int, j: int)
    requires 0 <= i < |b| && 0 <= j < |b| && Cmp(b, i, j, |b|) == 0
    ensures b[i] == b[j] && Cmp(b, Next(i, |b|), Next(j, |b|), |b|) == 0
  {
    hide Cmp;
    CmpFull(b, i, j, |b| + 1);
    CmpFirst(b, i, j, |b| + 1);
  }

  lemma CmpFirst(b: seq<byte>, i: int, j: int, d: nat)
    requires 0 <= i < |b| && 0 <= j < |b| && d > 0
    ensures Cmp(b, i, j, d) == if b[i] < b[j] then -1 else if b[i] > b[j] then 1 else Cmp(b, Next(i, |b|), Next(j, |b|), d - 1)
  {
  }

  // After k steps the walk is in a row whose rotation equals the one starting at k.
  lemma {:induction false} WalkInvariant(b: seq<byte>, s: seq<int>, u: seq<int>, orig: int, k: nat)
    requires b != [] && SortedOrder(b, s) && IsUnrank(LastColumn(b, s), u)
    requires 0 <= orig < |b| && s[orig] == 0 && k < |b|
    requires forall i :: 0 <= i < |u| ==> 0 <= u[i] < |u|
    ensures Cmp(b, s[Walk(u, orig, k)], k, |b|) == 0
  {
    var n := |b|;
    if k == 0 {
      CmpSelf(b, 0, n);
    } else {
      WalkInvariant(b, s, u, orig, k - 1);
      var r := Walk(u, orig, k - 1);
      StepBack(b, s, u, r);
      var p := Prev(s[u[r]], n);
      CmpTrans(b, p, s[r], k - 1, n);
      CmpAnti(b, p, s[r], n);
      CmpAnti(b, s[r], k - 1, n);
      CmpTrans(b, k - 1, s[r], p, n);
      CmpAnti(b, k - 1, p, n);
      CmpZeroNext(b, p, k - 1);
    }
  }

  // The Burrows-Wheeler inversion theorem, for every block and every sorted order of it.
  lemma InversionRestores(b: seq<byte>, s: seq<int>, orig: int)
    requires b != [] && SortedOrder(b, s) && 0 <= orig < |b| && s[orig] == 0
    ensures var u := Unrank(LastColumn(b, s)); |u| == |b| && forall i :: 0 <= i < |u| ==> 0 <= u[i] < |u|
    ensures forall k :: 0 <= k < |b| ==> Symbol(LastColumn(b, s), Unrank(LastColumn(b, s)), orig, k) == b[k]
  {
    var u := Unrank(LastColumn(b, s));
    UnrankIsPerm(LastColumn(b, s), u);
    forall k | 0 <= k < |b| ensures Symbol(LastColumn(b, s), u, orig, k) == b[k] {
      WalkInvariant(b, s, u, orig, k);
      var r := Walk(u, orig, k);
      StepBack(b, s, u, r);
      CmpZeroNext(b, s[r], k);
      CmpZeroNext(b, Prev(s[u[r]], |b|), s[r]);
    }
  }
}
