// fallbackSort: bucket sort by first symbol, then refine until every class is settled.
module FallbackSort {
  import opened Perms
  import opened Rotations
  import opened Counting
  import opened Partition3
  import opened FallbackQSort
  import opened BitTable
  import opened PrefixDoubling

  // ---- the initial bucket sort ----

  // The row of position i when buckets are filled from the top as positions ascend.
  function RankDown(b: seq<byte>, i: int): int
    requires 0 <= i < |b|
  {
    Below(b, b[i] as int + 1) - 1 - Count(b[..i], b[i])
  }

  lemma RankDownInBucket(b: seq<byte>, i: int)
    requires 0 <= i < |b|
    ensures Below(b, b[i]) <= RankDown(b, i) < Below(b, b[i] as int + 1) <= |b|
  {
    hide Count, Below;
    CountBefore(b, i);
    BelowStep(b, b[i]);
  }

  // Filling from the top reverses each bucket of the stable order.
  lemma RankDownDistinct(b: seq<byte>, i: int, j: int)
    requires 0 <= i < |b| && 0 <= j < |b| && i != j
    ensures RankDown(b, i) != RankDown(b, j)
  {
    hide Count, Below;
    RankDownInBucket(b, i);
    RankDownInBucket(b, j);
    if b[i] < b[j] {
      BelowMonotone(b, b[i] as int + 1, b[j]);
    } else if b[j] < b[i] {
      BelowMonotone(b, b[j] as int + 1, b[i]);
    } else if i < j {
      CountStep(b, i, b[i]);
      CountPrefix(b, i + 1, j, b[i]);
    } else {
      CountStep(b, j, b[j]);
      CountPrefix(b, j + 1, i, b[j]);
    }
  }

  lemma RankDownHits(b: seq<byte>, r: int) returns (i: int)
    requires 0 <= r < |b|
    ensures 0 <= i < |b| && RankDown(b, i) == r
  {
    BelowEnds(b);
    var c := BucketOf(b, r, 256);
    BelowStep(b, c);
    i := NthOccurrence(b, c, Below(b, c as int + 1) - 1 - r);
  }

  // All positions are in place.
  ghost predicate Placed(b: seq<byte>, s: seq<int>) {
    && |s| == |b|
    && forall i :: 0 <= i < |b| ==> 0 <= RankDown(b, i) < |b| && s[RankDown(b, i)] == i
  }

  lemma PlacedRow(b: seq<byte>, s: seq<int>, r: int)
    requires Placed(b, s) && 0 <= r < |b|
    ensures 0 <= s[r] < |b| && RankDown(b, s[r]) == r
    ensures Below(b, b[s[r]]) <= r < Below(b, b[s[r]] as int + 1)
  {
    hide Count, Below, RankDown;
    var i := RankDownHits(b, r);
    RankDownInBucket(b, i);
  }

  lemma PlacedOrder(b: seq<byte>, s: seq<int>, p: int, q: int)
    requires Placed(b, s) && 0 <= p < q < |b|
    ensures 0 <= s[p] < |b| && 0 <= s[q] < |b| && s[p] != s[q] && b[s[p]] <= b[s[q]]
    ensures b[s[p]] == b[s[q]] || exists c :: 0 <= c < 256 && p < Below(b, c) <= q
  {
    PlacedRow(b, s, p);
    PlacedRow(b, s, q);
    if b[s[q]] < b[s[p]] {
      BelowMonotone(b, b[s[q]] as int + 1, b[s[p]]);
    } else if b[s[p]] < b[s[q]] {
      BelowMonotone(b, b[s[p]] as int + 1, b[s[q]]);
    }
  }

  // A bucket boundary at row q separates different symbols.
  lemma PlacedBoundary(b: seq<byte>, s: seq<int>, q: int, c: int)
    requires Placed(b, s) && 0 < q < |b| && Below(b, c) == q
    ensures 0 <= s[q - 1] < |b| && 0 <= s[q] < |b| && b[s[q - 1]] < b[s[q]]
  {
    PlacedRow(b, s, q - 1);
    PlacedRow(b, s, q);
    if b[s[q - 1]] >= c {
      BelowMonotone(b, c, b[s[q - 1]]);
    }
    if b[s[q]] < c {
      BelowMonotone(b, b[s[q]] as int + 1, c);
    }
  }

  lemma PlacedSorted(b: seq<byte>, s: seq<int>)
    requires Placed(b, s)
    ensures SortedTo(b, s, 1)
  {
    hide Count, Below, RankDown;
    forall p | 0 <= p < |b| ensures 0 <= s[p] < |b| {
      PlacedRow(b, s, p);
    }
    forall p, q | 0 <= p < q < |b| ensures s[p] != s[q] && Cmp(b, s[p], s[q], 1) <= 0 {
      PlacedOrder(b, s, p, q);
    }
  }

  ghost predicate BucketStartTo(b: seq<byte>, p: int, top: int) {
    exists c :: 0 <= c < top && Below(b, c) == p
  }

  ghost predicate BucketStart(b: seq<byte>, p: int) {
    BucketStartTo(b, p, 256)
  }

  lemma BucketStartStep(b: seq<byte>, top: nat)
    ensures forall p :: BucketStartTo(b, p, top + 1) <==> BucketStartTo(b, p, top) || Below(b, top) == p
  {
    hide Below;
    forall p ensures BucketStartTo(b, p, top + 1) <==> BucketStartTo(b, p, top) || Below(b, top) == p {
      if BucketStartTo(b, p, top) {
        var c :| 0 <= c < top && Below(b, c) == p;
      }
    }
  }

  // Headers at the bucket starts are exactly the class starts at depth 1.
  lemma BucketsAreClasses(b: seq<byte>, s: seq<int>, bh: seq<bool>)
    requires Placed(b, s) && |bh| >= |b|
    requires forall p :: 0 <= p < |b| ==> (bh[p] <==> BucketStart(b, p))
    ensures Classes(b, s, bh, 1)
  {
    PlacedSorted(b, s);
    hide BucketStart, Placed, Starts, SortedTo;
    forall p | 0 <= p < |b| ensures bh[p] <==> Starts(b, s, p, 1) {
      HeaderIsStart(b, s, p);
    }
  }

  lemma HeaderIsStart(b: seq<byte>, s: seq<int>, p: int)
    requires Placed(b, s) && SortedTo(b, s, 1) && 0 <= p < |b|
    ensures BucketStart(b, p) <==> Starts(b, s, p, 1)
  {
    BelowEnds(b);
    hide Count, Below, RankDown;
    if p > 0 {
      PlacedOrder(b, s, p - 1, p);
      assert Starts(b, s, p, 1) <==> b[s[p - 1]] != b[s[p]];
      if c :| 0 <= c < 256 && Below(b, c) == p {
        PlacedBoundary(b, s, p, c);
      }
    }
  }

  // The two counting loops: bucket ends in ftab, bucket sizes kept in ftabCopy.
  method CountSymbols(block: array<byte>, ftab: array<int>, ftabCopy: array<int>, n: nat)
    requires n <= block.Length && ftab.Length == 257 && ftabCopy.Length == 256 && ftab != ftabCopy
    modifies ftab, ftabCopy
    ensures forall c :: 0 <= c < 256 ==> ftab[c] == Below(block[..n], c + 1)
    ensures forall c :: 0 <= c < 256 ==> ftabCopy[c] == Count(block[..n], c)
  {
    ghost var b := block[..n];
    for i := 0 to 257
      invariant forall c :: 0 <= c < i ==> ftab[c] == 0
    {
      ftab[i] := 0;
    }
    for i := 0 to n
      invariant forall c :: 0 <= c <= 256 ==> ftab[c] == Count(b[..i], c)
    {
      assert block[i] == b[i];
      CountStepAll(b, i);
      ftab[block[i]] := ftab[block[i]] + 1;
    }
    assert b[..n] == b;
    for i := 0 to 256
      invariant forall c :: 0 <= c <= 256 ==> ftab[c] == Count(b, c)
      invariant forall c :: 0 <= c < i ==> ftabCopy[c] == Count(b, c)
    {
      ftabCopy[i] := ftab[i];
    }
    BelowEnds(b);
    BelowStep(b, 0);
    for i := 1 to 257
      invariant forall c :: 0 <= c < 256 ==> ftabCopy[c] == Count(b, c)
      invariant forall c :: 0 <= c < i ==> ftab[c] == Below(b, c + 1)
      invariant forall c :: i <= c <= 256 ==> ftab[c] == Count(b, c)
    {
      BelowStep(b, i);
      ftab[i] := ftab[i] + ftab[i - 1];
    }
  }

  method PlaceSymbols(block: array<byte>, fmap: array<int>, ftab: array<int>, n: nat)
    requires n <= block.Length && n <= fmap.Length && ftab.Length == 257 && fmap != ftab
    requires forall c :: 0 <= c < 256 ==> ftab[c] == Below(block[..n], c + 1)
    modifies fmap, ftab
    ensures Placed(block[..n], fmap[..n])
    ensures forall c :: 0 <= c < 256 ==> ftab[c] == Below(block[..n], c)
  {
    ghost var b := block[..n];
    for i := 0 to n
      invariant forall c :: 0 <= c < 256 ==> ftab[c] == Below(b, c + 1) - Count(b[..i], c)
      invariant forall k :: 0 <= k < i ==> 0 <= RankDown(b, k) < n && fmap[RankDown(b, k)] == k
    {
      var j := block[i];
      assert j == b[i];
      var k := ftab[j] - 1;
      RankDownInBucket(b, i);
      assert k == RankDown(b, i);
      forall m | 0 <= m < i ensures RankDown(b, m) != k {
        RankDownDistinct(b, m, i);
      }
      ftab[j] := k;
      fmap[k] := i;
      CountStepAll(b, i);
    }
    assert b[..n] == b;
    forall c | 0 <= c < 256 ensures ftab[c] == Below(b, c) {
      BelowStep(b, c);
    }
  }

  // ---- the header bits ----

  method InitHeaders(bh: array<bool>, ftab: array<int>, n: nat, ghost b: seq<byte>)
    requires |b| == n && 32 * (3 + n / 32) <= bh.Length && ftab.Length == 257
    requires forall c :: 0 <= c < 256 ==> ftab[c] == Below(b, c)
    modifies bh
    ensures forall p :: 0 <= p < n ==> (bh[p] <==> BucketStart(b, p))
    ensures Sentinels(bh[..], n)
  {
    var nBhtab := 2 + n / 32;
    for i := 0 to 32 * nBhtab
      invariant forall k :: 0 <= k < i ==> !bh[k]
    {
      bh[i] := false;
    }
    for i := 0 to 256
      invariant forall p :: 0 <= p < n ==> (bh[p] <==> BucketStartTo(b, p, i))
    {
      BucketStartStep(b, i);
      bh[ftab[i]] := true;
    }
    for i := 0 to 32
      invariant forall p :: 0 <= p < n ==> (bh[p] <==> BucketStart(b, p))
      invariant forall k :: n <= k < n + 2 * i ==> (bh[k] <==> (k - n) % 2 == 0)
    {
      bh[n + 2 * i] := true;
      bh[n + 2 * i + 1] := false;
    }
  }

  // The first i rows have passed on their class start; j is the latest header.
  ghost predicate KeysTo(s: seq<int>, bh: seq<bool>, start: seq<int>, key: seq<int>, i: int, j: int, H: int) {
    && IsPerm(s, |s|) && |bh| >= |s| == |key| && 0 <= H <= |s| && 0 <= i == |start| <= |s|
    && 0 <= j <= i && j < |s| && bh[j] && (forall r :: j < r < i ==> !bh[r])
    && (forall p :: 0 <= p < i ==> 0 <= start[p] <= p && bh[start[p]])
    && (forall p, r :: 0 <= p < i && start[p] < r <= p ==> !bh[r])
    && (forall p :: 0 <= p < i ==> 0 <= Shift(s[p], |s| - H, |s|) < |s| && key[Shift(s[p], |s| - H, |s|)] == start[p])
  }

  lemma KeysStep(s: seq<int>, bh: seq<bool>, start: seq<int>, key: seq<int>, i: int, j: int, H: int, j': int, k: int, i': int)
    requires KeysTo(s, bh, start, key, i, j, H) && i < |s|
    requires j' == (if bh[i] then i else j) && k == (if s[i] - H < 0 then s[i] - H + |s| else s[i] - H) && i' == i + 1
    ensures 0 <= k < |s| && KeysTo(s, bh, start + [j'], key[k := j'], i', j', H)
  {
    assert k == Shift(s[i], |s| - H, |s|);
    forall p | 0 <= p < i ensures Shift(s[p], |s| - H, |s|) != k {
      assert s[p] != s[i];
    }
  }

  // Every position learns the class of the position H places after it.
  method WriteKeys(fmap: array<int>, eclass: array<int>, bh: array<bool>, n: nat, H: nat, ghost b: seq<byte>)
    requires |b| == n && 0 < n <= fmap.Length && n <= eclass.Length && n <= bh.Length && fmap != eclass
    requires Classes(b, fmap[..n], bh[..], H) && 1 <= H <= n
    modifies eclass
    ensures KeyOfNext(b, eclass[..n], H)
  {
    hide Classes, KeysTo;
    ghost var start: seq<int> := [];
    ghost var s, h := fmap[..n], bh[..];
    KeysStart(b, s, h, eclass[..n], H);
    var i, j := 0, 0;
    while i < n
      invariant 0 <= i <= n
      invariant KeysTo(s, h, start, eclass[..n], i, j, H)
    {
      ghost var key, j0, i' := eclass[..n], j, i + 1;
      if bh[i] { j := i; }
      var k := fmap[i] - H;
      if k < 0 { k := k + n; }
      KeysStep(s, h, start, key, i, j0, H, j, k, i');
      eclass[k] := j;
      assert eclass[..n] == key[k := j];
      start := start + [j];
      i := i + 1;
    }
    KeysDone(b, s, h, start, eclass[..n], i, j, H);
  }

  lemma KeysStart(b: seq<byte>, s: seq<int>, bh: seq<bool>, key: seq<int>, H: int)
    requires 1 <= H <= |b| == |key| && Classes(b, s, bh, H)
    ensures KeysTo(s, bh, [], key, 0, 0, H)
  {
    assert Starts(b, s, 0, H);
  }

  lemma KeysDone(b: seq<byte>, s: seq<int>, bh: seq<bool>, start: seq<int>, key: seq<int>, i: int, j: int, H: int)
    requires KeysTo(s, bh, start, key, i, j, H) && i == |s| == |b| && 1 <= H && Classes(b, s, bh, H)
    ensures KeyOfNext(b, key, H)
  {
    hide Classes, KeyOfNext;
    assert ClassStart(bh, |b|, start);
    assert StartsWritten(b, s, start, key, H);
    hide KeysTo, ClassStart, StartsWritten;
    KeysFromStarts(b, s, bh, H, start, key);
  }

  // h' is h with headers set inside [l, r] exactly where the key of t changes.
  ghost predicate Marked(t: seq<int>, h: seq<bool>, h': seq<bool>, keys: seq<int>, l: int, r: int) {
    && 0 <= l < r < |t| && |h| == |h'| && r < |h| && Valid(keys, 0, t, l, r)
    && (forall p :: 0 <= p < |h| && !(l <= p <= r) ==> h'[p] == h[p])
    && h'[l] && (forall p :: l < p <= r ==> (h'[p] <==> keys[t[p - 1]] != keys[t[p]]))
  }

  method MarkChanges(fmap: array<int>, eclass: array<int>, bh: array<bool>, n: nat, l: int, r: int)
    requires n <= fmap.Length && n <= eclass.Length && n < bh.Length && 0 <= l < r < n
    requires Valid(eclass[..n], 0, fmap[..n], l, r)
    requires bh[l] && forall p :: l < p <= r ==> !bh[p]
    modifies bh
    ensures Marked(fmap[..n], old(bh[..]), bh[..], eclass[..n], l, r)
  {
    assert forall p :: l <= p <= r ==> fmap[..n][p] == fmap[p] && 0 <= fmap[p] < n;
    var cc := -1;
    for i := l to r + 1
      invariant forall p :: 0 <= p < bh.Length && !(l <= p < i) ==> bh[p] == old(bh[p])
      invariant bh[l] && (i > l ==> cc == eclass[fmap[i - 1]])
      invariant forall p :: l < p < i ==> (bh[p] <==> eclass[fmap[p - 1]] != eclass[fmap[p]])
    {
      var cc1 := eclass[fmap[i]];
      if cc != cc1 {
        bh[i] := true;
        cc := cc1;
      }
    }
  }

  lemma RefineMarked(b: seq<byte>, s: seq<int>, t: seq<int>, h: seq<bool>, h': seq<bool>, keys: seq<int>, H: nat, l: int, r: int, below: int)
    requires Refined(b, s, h, H, below) && below == l - 1 && Bucket(b, s, H, l, r) && PermIn(s, t, l, r + 1)
    requires KeyOfNext(b, keys, H) && Marked(t, h, h', keys, l, r) && KeysSorted(keys, t, l, r)
    requires r + 1 < |h| && h[r + 1]
    ensures Refined(b, t, h', H, r)
  {
    RefineBucket(b, s, t, h, h', keys, H, l, r);
  }

  // Sort one class by key and mark the finer classes inside it.
  method SortBucket(fmap: array<int>, eclass: array<int>, bh: array<bool>, n: nat, H: nat, l: int, r: int, ghost below: int, ghost b: seq<byte>)
    requires |b| == n < 0x8000_0000 && n <= fmap.Length && n <= eclass.Length && n < bh.Length && fmap != eclass
    requires 0 <= l < r < n && below == l - 1 && Refined(b, fmap[..n], bh[..], H, below) && KeyOfNext(b, eclass[..n], H)
    requires (forall p :: l < p <= r ==> !bh[p]) && bh[r + 1]
    modifies fmap, bh
    ensures Refined(b, fmap[..n], bh[..], H, r)
    ensures forall p :: r < p < bh.Length ==> bh[p] == old(bh[p])
  {
    ghost var s, h, whole := fmap[..n], bh[..], fmap[..];
    var keys := eclass[..n];
    FoundBucket(b, s, h, H, l, r);
    assert h[l];
    ValidRange(b, fmap[..], n, keys, l, r);
    hide Refined, Bucket, KeyOfNext, Valid, KeysSorted, PermIn, Marked;
    FallbackQSort3(fmap, keys, l, r);
    SortedPrefix(whole, fmap[..], keys, n, l, r);
    ghost var t := fmap[..n];
    MarkChanges(fmap, eclass, bh, n, l, r);
    MarkedOutside(t, h, bh[..], keys, l, r);
    RefineMarked(b, s, t, h, bh[..], keys, H, l, r, below);
  }

  lemma MarkedOutside(t: seq<int>, h: seq<bool>, h': seq<bool>, keys: seq<int>, l: int, r: int)
    requires Marked(t, h, h', keys, l, r)
    ensures forall p :: r < p < |h| ==> h'[p] == h[p]
  {
  }

  lemma SortedPrefix(whole: seq<int>, f: seq<int>, keys: seq<int>, n: nat, l: int, r: int)
    requires PermIn(whole, f, l, r + 1) && KeysSorted(keys, f, l, r) && 0 <= l < r < n <= |whole|
    ensures PermIn(whole[..n], f[..n], l, r + 1) && KeysSorted(keys, f[..n], l, r) && Valid(keys, 0, f[..n], l, r)
  {
    PermInPrefix(whole, f, l, r + 1, n);
    assert forall k :: l <= k <= r ==> f[..n][k] == f[k];
  }

  lemma ValidRange(b: seq<byte>, f: seq<int>, n: nat, keys: seq<int>, l: int, r: int)
    requires |b| == n <= |f| && IsPerm(f[..n], n) && |keys| == n && 0 <= l <= r < n
    ensures Valid(keys, 0, f, l, r)
  {
    forall k | l <= k <= r ensures 0 <= f[k] < n {
      assert f[k] == f[..n][k];
    }
  }

  // ---- one pass, and all of them ----

  // Rows up to r were single-row classes at depth d.
  ghost predicate Singles(b: seq<byte>, s: seq<int>, d: nat, r: int) {
    IsPerm(s, |b|) && r < |b| && forall p :: 0 <= p <= r ==> Starts(b, s, p, d)
  }

  // Jumping over single-row classes, from r to just before l.
  lemma SkipSingles(b: seq<byte>, s: seq<int>, bh: seq<bool>, d: nat, r: int, below: int, settled: bool)
    requires Refined(b, s, bh, d, r) && r <= below < |b| && forall p :: r < p <= below + 1 ==> bh[p]
    requires settled ==> Singles(b, s, d, r)
    ensures Refined(b, s, bh, d, below)
    ensures settled ==> Singles(b, s, d, below)
  {
    RefineSkip(b, s, bh, d, r, below);
  }

  lemma RefinedHeader(b: seq<byte>, s: seq<int>, bh: seq<bool>, d: nat, r: int, after: int)
    requires Refined(b, s, bh, d, r) && after == r + 1
    ensures -1 <= r < |b| && after < |bh| && bh[after]
  {
  }

  // The two scans that bracket the next class of more than one row after row r0.
  method NextBucket(bh: array<bool>, n: nat, r0: int) returns (done: bool, l: int, r: int)
    requires -1 <= r0 < n && 32 * (3 + n / 32) <= bh.Length && Sentinels(bh[..], n) && bh[r0 + 1]
    ensures done ==> forall p :: r0 < p <= n ==> bh[p]
    ensures !done ==> r0 < l < r < n
    ensures !done ==> (forall p :: r0 < p <= l ==> bh[p]) && (forall p :: l < p <= r ==> !bh[p]) && bh[r + 1]
  {
    assert bh[..][n] && !bh[..][n + 1];
    var k := Skip(bh, r0 + 1, true, n + 1);
    l, r := k - 1, 0;
    if l >= n {
      return true, l, r;
    }
    k := Skip(bh, k, false, n);
    r := k - 1;
    return r >= n, l, r;
  }

  // One pass at depth H: every class of more than one row is sorted by what follows.
  method RefinePass(fmap: array<int>, eclass: array<int>, bh: array<bool>, n: nat, H: nat, ghost b: seq<byte>)
    returns (nNotDone: int)
    requires |b| == n && 0 < n < 0x8000_0000 && n <= fmap.Length && n <= eclass.Length && 32 * (3 + n / 32) <= bh.Length
    requires fmap != eclass && Classes(b, fmap[..n], bh[..], H) && KeyOfNext(b, eclass[..n], H) && Sentinels(bh[..], n)
    modifies fmap, bh
    ensures Classes(b, fmap[..n], bh[..], 2 * H) && Sentinels(bh[..], n)
    ensures nNotDone == 0 ==> Singles(b, fmap[..n], H, n - 1)
  {
    nNotDone := 0;
    var r := -1;
    RefineStart(b, fmap[..n], bh[..], H);
    assert IsPerm(fmap[..n], n);
    assert Singles(b, fmap[..n], H, r);
    hide Refined, Singles, KeyOfNext, Classes, Sentinels;
    while true
      invariant Refined(b, fmap[..n], bh[..], H, r) && -1 <= r < n && nNotDone >= 0
      invariant Sentinels(bh[..], n) && KeyOfNext(b, eclass[..n], H)
      invariant nNotDone == 0 ==> Singles(b, fmap[..n], H, r)
      decreases n - r
    {
      RefinedHeader(b, fmap[..n], bh[..], H, r, r + 1);
      ghost var r0, h := r, bh[..];
      var done, l;
      done, l, r := NextBucket(bh, n, r);
      ghost var below := if done then n - 1 else l - 1;
      SkipSingles(b, fmap[..n], h, H, r0, below, nNotDone == 0);
      if done { break; }
      nNotDone := nNotDone + (r - l + 1);
      SortBucket(fmap, eclass, bh, n, H, l, r, below, b);
      SentinelsKept(h, bh[..], n, r);
    }
    ghost var last := n - 1;
    PassEnd(b, fmap[..n], bh[..], H, last);
  }

  lemma PassEnd(b: seq<byte>, s: seq<int>, bh: seq<bool>, d: nat, r: int)
    requires b != [] && Refined(b, s, bh, d, r) && r == |b| - 1
    ensures Classes(b, s, bh, 2 * d)
  {
    RefineEnd(b, s, bh, d);
  }

  lemma SentinelsKept(h: seq<bool>, h': seq<bool>, n: int, r: int)
    requires Sentinels(h, n) && |h'| == |h| && -1 <= r < n && forall p :: r < p < |h| ==> h'[p] == h[p]
    ensures Sentinels(h', n)
  {
  }

  // ---- restoring the block ----

  // The first symbols of the rows in order.
  function FirstColumn(b: seq<byte>, s: seq<int>): (f: seq<byte>)
    requires |s| == |b| && forall p :: 0 <= p < |s| ==> 0 <= s[p] < |b|
  {
    seq(|b|, p requires 0 <= p < |b| => b[s[p]])
  }

  lemma {:induction false} CountIsMultiplicity(s: seq<int>, c: int)
    ensures Count(s, c) == multiset(s)[c]
  {
    if s != [] {
      var k := |s| - 1;
      CountIsMultiplicity(s[..k], c);
      assert s == s[..k] + [s[k]];
    }
  }

  lemma Without(b: seq<byte>, s: seq<int>, k: int)
    requires IsPerm(s, |b|) && 0 <= k < |b| && s[k] == |b| - 1
    ensures IsPerm(s[..k] + s[k + 1..], |b| - 1)
    ensures FirstColumn(b, s)[..k] + FirstColumn(b, s)[k + 1..] == FirstColumn(b[..|b| - 1], s[..k] + s[k + 1..])
  {
    var s' := s[..k] + s[k + 1..];
    forall p | 0 <= p < |b| - 1 ensures s'[p] == (if p < k then s[p] else s[p + 1]) && s'[p] != |b| - 1 {
    }
  }

  // Reading the block in any row order gives the same symbols.
  lemma {:induction false} FirstColumnSymbols(b: seq<byte>, s: seq<int>)
    requires IsPerm(s, |b|)
    ensures multiset(FirstColumn(b, s)) == multiset(b)
    decreases |b|
  {
    if b != [] {
      var n := |b| - 1;
      var k := PermHits(s, |b|, n);
      Without(b, s, k);
      FirstColumnSymbols(b[..n], s[..k] + s[k + 1..]);
      var f := FirstColumn(b, s);
      hide FirstColumn, IsPerm;
      assert f == f[..k] + [b[n]] + f[k + 1..];
      assert b == b[..n] + [b[n]];
    }
  }

  // The symbols left to place, counted.
  ghost predicate LeftToPlace(f: seq<byte>, count: seq<int>, i: int, j: int) {
    && |count| == 256 && 0 <= i <= |f| && 0 <= j < 256
    && (forall p, q :: 0 <= p < q < |f| ==> f[p] <= f[q])
    && (forall c :: 0 <= c < 256 ==> count[c] == multiset(f[i..])[c])
    && (i < |f| ==> j <= f[i])
  }

  lemma PlaceSkip(f: seq<byte>, count: seq<int>, i: int, j: int)
    requires LeftToPlace(f, count, i, j) && i < |f|
    ensures count[j] == 0 ==> j < f[i] && LeftToPlace(f, count, i, j + 1)
    ensures count[j] != 0 ==> f[i] == j
  {
    assert f[i..] == [f[i]] + f[i + 1..];
    if count[j] != 0 {
      assert j in f[i..];
      var p :| 0 <= p < |f[i..]| && f[i..][p] == j;
      assert f[i + p] == j;
    }
  }

  lemma PlaceOne(f: seq<byte>, count: seq<int>, i: int, j: int, i': int)
    requires LeftToPlace(f, count, i, j) && i < |f| && f[i] == j && i' == i + 1
    ensures LeftToPlace(f, count[j := count[j] - 1], i', j)
  {
    assert f[i..] == [f[i]] + f[i + 1..];
  }

  // The inner loop: on to the next symbol that has rows left.
  method NextSymbol(ftabCopy: array<int>, j0: int, ghost f: seq<byte>, ghost i: int) returns (j: int)
    requires LeftToPlace(f, ftabCopy[..], i, j0) && i < |f|
    ensures LeftToPlace(f, ftabCopy[..], i, j) && j == f[i]
  {
    j := j0;
    PlaceSkip(f, ftabCopy[..], i, j);
    while ftabCopy[j] == 0
      invariant LeftToPlace(f, ftabCopy[..], i, j)
      invariant ftabCopy[j] == 0 ==> j < f[i] && LeftToPlace(f, ftabCopy[..], i, j + 1)
      invariant ftabCopy[j] != 0 ==> f[i] == j
      decreases 256 - j
    {
      j := j + 1;
      PlaceSkip(f, ftabCopy[..], i, j);
    }
  }

  // Since the rows are sorted, counting symbols off restores each row's first symbol.
  method Reconstruct(fmap: array<int>, block: array<byte>, ftabCopy: array<int>, n: nat, ghost b: seq<byte>)
    requires |b| == n && n <= fmap.Length && n <= block.Length && ftabCopy.Length == 256 && fmap != ftabCopy
    requires SortedTo(b, fmap[..n], 1) && forall c :: 0 <= c < 256 ==> ftabCopy[c] == Count(b, c)
    modifies block, ftabCopy
    ensures block[..n] == b
  {
    ghost var s := fmap[..n];
    ghost var f := FirstColumn(b, s);
    ColumnStart(b, s, ftabCopy[..]);
    assert IsPerm(s, n);
    assert Restored(b, s, block[..n], 0);
    hide SortedTo, LeftToPlace, Restored, IsPerm;
    var i, j := 0, 0;
    while i < n
      invariant 0 <= i <= n
      invariant LeftToPlace(f, ftabCopy[..], i, j)
      invariant Restored(b, s, block[..n], i)
    {
      j := NextSymbol(ftabCopy, j, f, i);
      ghost var i', t := i + 1, block[..n];
      PlaceOne(f, ftabCopy[..], i, j, i');
      RestoreStep(b, s, t, i, j, i');
      ftabCopy[j] := ftabCopy[j] - 1;
      block[fmap[i]] := j;
      assert block[..n] == t[s[i] := j];
      i := i + 1;
    }
    AllRestored(b, s, block[..n], i);
  }

  ghost predicate Restored(b: seq<byte>, s: seq<int>, t: seq<byte>, i: int) {
    IsPerm(s, |b|) && |t| == |b| && 0 <= i <= |b| && forall p :: 0 <= p < i ==> t[s[p]] == b[s[p]]
  }

  lemma RestoreStep(b: seq<byte>, s: seq<int>, t: seq<byte>, i: int, j: byte, i': int)
    requires Restored(b, s, t, i) && i < |b| && i' == i + 1 && j == FirstColumn(b, s)[i]
    ensures 0 <= s[i] < |b| && Restored(b, s, t[s[i] := j], i')
  {
    assert forall p :: 0 <= p < i ==> s[p] != s[i];
  }

  lemma AllRestored(b: seq<byte>, s: seq<int>, t: seq<byte>, i: int)
    requires Restored(b, s, t, i) && i == |b|
    ensures t == b
  {
    forall x | 0 <= x < |b| ensures t[x] == b[x] {
      var p := PermHits(s, |b|, x);
    }
  }

  lemma ColumnStart(b: seq<byte>, s: seq<int>, count: seq<int>)
    requires SortedTo(b, s, 1) && |count| == 256 && forall c :: 0 <= c < 256 ==> count[c] == Count(b, c)
    ensures LeftToPlace(FirstColumn(b, s), count, 0, 0)
  {
    var f := FirstColumn(b, s);
    FirstColumnSymbols(b, s);
    assert f[0..] == f;
    forall c | 0 <= c < 256 ensures count[c] == multiset(f[0..])[c] {
      CountIsMultiplicity(b, c);
    }
    forall p, q | 0 <= p < q < |f| ensures f[p] <= f[q] {
      assert Cmp(b, s[p], s[q], 1) <= 0;
    }
  }

  // The key table shares its storage with the block bytes, so writing keys destroys the
  // block.  Nothing is promised about the bytes left behind.
  method Clobber(block: array<byte>)
    modifies block
  {
    for i := 0 to block.Length {
      block[i] := 0;
    }
  }

  // fallbackSort: for every block, fmap ends as a sorted order of the rotations, and the
  // block bytes, destroyed on the way, are restored.
  method FallbackSort(fmap: array<int>, eclass: array<int>, block: array<byte>, bh: array<bool>, n: nat)
    requires 0 < n < 0x4000_0000 && n <= fmap.Length && n <= eclass.Length && n <= block.Length
    requires 32 * (3 + n / 32) <= bh.Length && fmap != eclass
    modifies fmap, eclass, block, bh
    ensures SortedOrder(old(block[..n]), fmap[..n])
    ensures block[..n] == old(block[..n])
  {
    ghost var b := block[..n];
    var ftab, ftabCopy := new int[257], new int[256];
    CountSymbols(block, ftab, ftabCopy, n);
    PlaceSymbols(block, fmap, ftab, n);
    InitHeaders(bh, ftab, n, b);
    BucketsAreClasses(b, fmap[..n], bh[..]);
    Clobber(block);
    Doubling(fmap, eclass, bh, n, b);
    DepthOne(b, fmap[..n]);
    Reconstruct(fmap, block, ftabCopy, n, b);
  }

  // The log(N) loop.
  method Doubling(fmap: array<int>, eclass: array<int>, bh: array<bool>, n: nat, ghost b: seq<byte>)
    requires |b| == n && 0 < n < 0x4000_0000 && n <= fmap.Length && n <= eclass.Length
    requires 32 * (3 + n / 32) <= bh.Length && fmap != eclass
    requires Classes(b, fmap[..n], bh[..], 1) && Sentinels(bh[..], n)
    modifies fmap, eclass, bh
    ensures SortedOrder(b, fmap[..n])
  {
    hide Classes, Sentinels, KeyOfNext, Singles;
    var H := 1;
    while true
      invariant 1 <= H <= n
      invariant Classes(b, fmap[..n], bh[..], H) && Sentinels(bh[..], n)
      decreases n - H
    {
      WriteKeys(fmap, eclass, bh, n, H, b);
      ghost var H0 := H;
      var nNotDone := RefinePass(fmap, eclass, bh, n, H, b);
      H := H * 2;
      ghost var last := n - 1;
      if nNotDone == 0 {
        Settled(b, fmap[..n], bh[..], H0, H, last);
      } else if H > n {
        PassedLength(b, fmap[..n], bh[..], H);
      }
      if H > n || nNotDone == 0 { break; }
    }
  }

  lemma Settled(b: seq<byte>, s: seq<int>, bh: seq<bool>, d: nat, dd: nat, last: int)
    requires Classes(b, s, bh, dd) && dd == 2 * d && Singles(b, s, d, last) && last == |b| - 1 && d <= |b|
    ensures SortedOrder(b, s)
  {
    forall p, q | 0 <= p < q < |b| ensures Cmp(b, s[p], s[q], d) <= 0 {
      if Cmp(b, s[p], s[q], d) > 0 {
        CmpExtend(b, s[p], s[q], d, dd);
      }
    }
    AllSingle(b, s, d);
  }

  lemma PassedLength(b: seq<byte>, s: seq<int>, bh: seq<bool>, d: nat)
    requires Classes(b, s, bh, d) && d > |b|
    ensures SortedOrder(b, s)
  {
    DeepEnough(b, s, d);
  }

  lemma DepthOne(b: seq<byte>, s: seq<int>)
    requires b != [] && SortedOrder(b, s)
    ensures SortedTo(b, s, 1)
  {
    forall p, q | 0 <= p < q < |b| ensures Cmp(b, s[p], s[q], 1) <= 0 {
      if Cmp(b, s[p], s[q], 1) > 0 {
        CmpExtend(b, s[p], s[q], 1, |b|);
      }
    }
  }
}
