// Counting symbols: the arithmetic behind every bucket table in the compressor and the
// decompressor.  Rank is the row a symbol gets when a column is sorted stably.
module Counting {
  import opened Rotations
  import opened Perms

  // Occurrences of c in s.
  function Count(s: seq<int>, c: int): (k: nat)
    ensures k <= |s|
  {
    if s == [] then 0
    else Count(s[..|s| - 1], c) + if s[|s| - 1] == c then 1 else 0
  }

  // Symbols of s below c: the first row of c's bucket.
  function Below(s: seq<int>, c: int): (k: nat)
    ensures k <= |s|
  {
    if s == [] then 0
    else Below(s[..|s| - 1], c) + if s[|s| - 1] < c then 1 else 0
  }

  lemma {:induction false} BelowStep(s: seq<int>, c: int)
    ensures Below(s, c + 1) == Below(s, c) + Count(s, c)
  {
    if s != [] {
      BelowStep(s[..|s| - 1], c);
    }
  }

  lemma {:induction false} BelowMonotone(s: seq<int>, c: int, d: int)
    requires c <= d
    ensures Below(s, c) <= Below(s, d)
  {
    if s != [] {
      BelowMonotone(s[..|s| - 1], c, d);
    }
  }

  lemma {:induction false} BelowEndsIn(s: seq<int>, top: int)
    requires forall i :: 0 <= i < |s| ==> 0 <= s[i] < top
    ensures Below(s, 0) == 0 && Below(s, top) == |s|
  {
    if s != [] {
      BelowEndsIn(s[..|s| - 1], top);
    }
  }

  lemma BelowEnds(s: seq<byte>)
    ensures Below(s, 0) == 0 && Below(s, 256) == |s|
  {
    BelowEndsIn(s, 256);
  }

  lemma CountStep(s: seq<int>, i: int, c: int)
    requires 0 <= i < |s|
    ensures Count(s[..i + 1], c) == Count(s[..i], c) + if s[i] == c then 1 else 0
    ensures Below(s[..i + 1], c) == Below(s[..i], c) + if s[i] < c then 1 else 0
  {
    assert s[..i + 1][..i] == s[..i];
  }

  lemma CountStepAll(s: seq<int>, i: int)
    requires 0 <= i < |s|
    ensures forall c :: Count(s[..i + 1], c) == Count(s[..i], c) + if s[i] == c then 1 else 0
  {
    forall c ensures Count(s[..i + 1], c) == Count(s[..i], c) + if s[i] == c then 1 else 0 {
      CountStep(s, i, c);
    }
  }

  lemma {:induction false} CountPrefix(s: seq<int>, i: int, j: int, c: int)
    requires 0 <= i <= j <= |s|
    ensures Count(s[..i], c) <= Count(s[..j], c)
    decreases j - i
  {
    if i < j {
      CountPrefix(s, i, j - 1, c);
      CountStep(s, j - 1, c);
    }
  }

  // Strictly fewer occurrences before i than in all of s, when s[i] is one of them.
  lemma CountBefore(s: seq<int>, i: int)
    requires 0 <= i < |s|
    ensures Count(s[..i], s[i]) < Count(s, s[i])
  {
    CountStep(s, i, s[i]);
    CountPrefix(s, i + 1, |s|, s[i]);
    assert s[..|s|] == s;
  }

  // The row of s[i] in the stable sort of s.
  function Rank(s: seq<int>, i: int): int
    requires 0 <= i < |s|
  {
    Below(s, s[i]) + Count(s[..i], s[i])
  }

  lemma RankInBucket(s: seq<int>, i: int)
    requires 0 <= i < |s|
    ensures Below(s, s[i]) <= Rank(s, i) < Below(s, s[i] + 1) <= |s|
  {
    hide Count, Below;
    CountBefore(s, i);
    BelowStep(s, s[i]);
  }

  // The stable sort orders by symbol and keeps equal symbols in their given order.
  lemma RankOrders(s: seq<int>, i: int, j: int)
    requires 0 <= i < |s| && 0 <= j < |s|
    ensures Rank(s, i) < Rank(s, j) <==> s[i] < s[j] || (s[i] == s[j] && i < j)
  {
    hide Count, Below;
    RankInBucket(s, i);
    RankInBucket(s, j);
    if s[i] < s[j] {
      BelowMonotone(s, s[i] + 1, s[j]);
    } else if s[j] < s[i] {
      BelowMonotone(s, s[j] + 1, s[i]);
    } else if i < j {
      CountStep(s, i, s[i]);
      CountPrefix(s, i + 1, j, s[i]);
    } else if j < i {
      CountStep(s, j, s[j]);
      CountPrefix(s, j + 1, i, s[j]);
    }
  }

  lemma RankDistinct(s: seq<int>, i: int, j: int)
    requires 0 <= i < |s| && 0 <= j < |s| && i != j
    ensures Rank(s, i) != Rank(s, j)
  {
    RankOrders(s, i, j);
    RankOrders(s, j, i);
  }

  lemma {:induction false} NthOccurrence(s: seq<int>, c: int, m: nat) returns (i: int)
    requires m < Count(s, c)
    ensures 0 <= i < |s| && s[i] == c && Count(s[..i], c) == m
  {
    var t := s[..|s| - 1];
    if m < Count(t, c) {
      i := NthOccurrence(t, c, m);
      assert t[..i] == s[..i];
    } else {
      i := |s| - 1;
    }
  }

  // The bucket a row belongs to.
  lemma {:induction false} BucketIn(s: seq<int>, r: int, top: nat) returns (c: nat)
    requires 0 <= r < Below(s, top) && forall i :: 0 <= i < |s| ==> 0 <= s[i]
    ensures c < top && Below(s, c) <= r < Below(s, c + 1)
  {
    BelowNothing(s);
    if r < Below(s, top - 1) {
      c := BucketIn(s, r, top - 1);
    } else {
      c := top - 1;
    }
  }

  lemma {:induction false} BelowNothing(s: seq<int>)
    requires forall i :: 0 <= i < |s| ==> 0 <= s[i]
    ensures Below(s, 0) == 0
  {
    if s != [] {
      BelowNothing(s[..|s| - 1]);
    }
  }

  lemma BucketOf(s: seq<byte>, r: int, top: nat) returns (c: byte)
    requires 0 <= r < Below(s, top) && top <= 256
    ensures Below(s, c) <= r < Below(s, c + 1)
  {
    c := BucketIn(s, r, top);
  }

  // Every row is some symbol's row.
  lemma RankHitsIn(s: seq<int>, r: int, top: int) returns (i: int)
    requires 0 <= r < |s| && forall i :: 0 <= i < |s| ==> 0 <= s[i] < top
    ensures 0 <= i < |s| && Rank(s, i) == r
  {
    BelowEndsIn(s, top);
    var c := BucketIn(s, r, top);
    BelowStep(s, c);
    i := NthOccurrence(s, c, r - Below(s, c));
  }

  lemma RankHits(s: seq<byte>, r: int) returns (i: int)
    requires 0 <= r < |s|
    ensures 0 <= i < |s| && Rank(s, i) == r
  {
    i := RankHitsIn(s, r, 256);
  }

  // u undoes the stable sort: row Rank(s, i) holds i.
  ghost predicate IsUnrank(s: seq<byte>, u: seq<int>) {
    && |u| == |s|
    && (forall i :: 0 <= i < |s| ==> 0 <= Rank(s, i) < |s| && u[Rank(s, i)] == i)
  }

  lemma UnrankRow(s: seq<byte>, u: seq<int>, r: int)
    requires IsUnrank(s, u) && 0 <= r < |s|
    ensures 0 <= u[r] < |s| && Rank(s, u[r]) == r
    ensures Below(s, s[u[r]]) <= r < Below(s, s[u[r]] as int + 1)
  {
    var i := RankHits(s, r);
    RankInBucket(s, i);
  }

  lemma UnrankIsPerm(s: seq<byte>, u: seq<int>)
    requires IsUnrank(s, u)
    ensures IsPerm(u, |s|)
  {
    forall r | 0 <= r < |s| ensures 0 <= u[r] < |s| && Rank(s, u[r]) == r {
      UnrankRow(s, u, r);
    }
  }

  lemma RankExists(s: seq<byte>, r: int)
    requires 0 <= r < |s|
    ensures exists i :: 0 <= i < |s| && Rank(s, i) == r
  {
    var i := RankHits(s, r);
  }

  ghost function SourceOf(s: seq<byte>, r: int): (i: int)
    requires 0 <= r < |s|
    ensures 0 <= i < |s| && Rank(s, i) == r
  {
    RankExists(s, r);
    var i :| 0 <= i < |s| && Rank(s, i) == r;
    i
  }

  // The inverse of the stable sort of s, as one sequence.
  ghost function Unrank(s: seq<byte>): (u: seq<int>)
    ensures IsUnrank(s, u)
    ensures forall i :: 0 <= i < |u| ==> 0 <= u[i] < |u|
  {
    var u := seq(|s|, r requires 0 <= r < |s| => SourceOf(s, r));
    assert IsUnrank(s, u) by {
      forall i | 0 <= i < |s| ensures 0 <= Rank(s, i) < |s| && u[Rank(s, i)] == i {
        RankInBucket(s, i);
        if u[Rank(s, i)] != i {
          RankDistinct(s, i, u[Rank(s, i)]);
        }
      }
    }
    u
  }

  lemma UnrankUnique(s: seq<byte>, u: seq<int>)
    requires IsUnrank(s, u)
    ensures u == Unrank(s)
  {
    forall r | 0 <= r < |s| ensures u[r] == Unrank(s)[r] {
      UnrankRow(s, u, r);
    }
  }
}
