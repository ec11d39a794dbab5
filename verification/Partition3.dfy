// The three-way partition both quicksorts use: elements equal to the pivot are parked at
// the two ends while scanning, then swapped into the middle.
module Partition3 {
  import opened Perms

  // The key of element x: the table entry d places after it.
  function Key(keys: seq<int>, d: nat, x: int): int
    requires 0 <= x && x + d < |keys|
  {
    keys[x + d]
  }

  ghost predicate Valid(keys: seq<int>, d: nat, s: seq<int>, lo: int, hi: int) {
    0 <= lo && hi < |s| && forall k :: lo <= k <= hi ==> 0 <= s[k] && s[k] + d < |keys|
  }

  lemma ValidKept(keys: seq<int>, d: nat, s: seq<int>, t: seq<int>, lo: int, hi: int)
    requires Valid(keys, d, s, lo, hi) && PermIn(s, t, lo, hi + 1)
    ensures Valid(keys, d, t, lo, hi)
  {
    forall k | lo <= k <= hi ensures 0 <= t[k] && t[k] + d < |keys| {
      var j := PermInFrom(s, t, lo, hi + 1, k);
    }
  }

  // Scanning state: = < ? > = around the pivot key.
  ghost predicate Scanned(keys: seq<int>, d: nat, s: seq<int>, med: int, lo: int, ltLo: int, unLo: int, unHi: int, gtHi: int, hi: int) {
    && Valid(keys, d, s, lo, hi)
    && lo <= ltLo <= unLo <= hi + 1 && lo - 1 <= unHi <= gtHi <= hi
    && (forall k :: lo <= k < ltLo ==> Key(keys, d, s[k]) == med)
    && (forall k :: ltLo <= k < unLo ==> Key(keys, d, s[k]) < med)
    && (forall k :: unHi < k <= gtHi ==> Key(keys, d, s[k]) > med)
    && (forall k :: gtHi < k <= hi ==> Key(keys, d, s[k]) == med)
  }

  // Finished state: < = > around the pivot key.
  ghost predicate Parted(keys: seq<int>, d: nat, s: seq<int>, med: int, lo: int, n: int, m: int, hi: int) {
    && Valid(keys, d, s, lo, hi)
    && lo - 1 <= n < m - 1 && m <= hi + 1
    && (forall k :: lo <= k <= n ==> Key(keys, d, s[k]) < med)
    && (forall k :: n < k < m ==> Key(keys, d, s[k]) == med)
    && (forall k :: m <= k <= hi ==> Key(keys, d, s[k]) > med)
  }

  function Swapped(s: seq<int>, i: int, j: int): seq<int>
    requires 0 <= i < |s| && 0 <= j < |s|
  {
    s[i := s[j]][j := s[i]]
  }

  method Swap(a: array<int>, i: int, j: int)
    requires 0 <= i < a.Length && 0 <= j < a.Length
    modifies a
    ensures a[..] == Swapped(old(a[..]), i, j)
  {
    a[i], a[j] := a[j], a[i];
  }

  lemma SwappedIn(start: seq<int>, s: seq<int>, i: int, j: int, lo: int, hi: int)
    requires PermIn(start, s, lo, hi + 1) && lo <= i <= hi && lo <= j <= hi
    ensures PermIn(start, Swapped(s, i, j), lo, hi + 1)
  {
    PermInSwap(s, i, j, lo, hi + 1);
    PermInTrans(start, s, Swapped(s, i, j), lo, hi + 1);
  }

  lemma PermInRefl(s: seq<int>, lo: int, hi: int)
    requires 0 <= lo <= hi <= |s|
    ensures PermIn(s, s, lo, hi)
  {
  }

  // What a scan may look at.
  lemma ScanBounds(keys: seq<int>, d: nat, s: seq<int>, med: int, lo: int, ltLo: int, unLo: int, unHi: int, gtHi: int, hi: int)
    requires Scanned(keys, d, s, med, lo, ltLo, unLo, unHi, gtHi, hi)
    ensures 0 <= lo <= ltLo <= unLo <= hi + 1 <= |s| && lo - 1 <= unHi <= gtHi <= hi
    ensures unLo <= unHi ==> 0 <= s[unLo] && s[unLo] + d < |keys| && 0 <= s[unHi] && s[unHi] + d < |keys|
  {
  }

  // One step of the upward scan.
  lemma ScanUpStep(keys: seq<int>, d: nat, s: seq<int>, med: int, lo: int, ltLo: int, unLo: int, unHi: int, gtHi: int, hi: int)
    requires Scanned(keys, d, s, med, lo, ltLo, unLo, unHi, gtHi, hi) && unLo <= unHi
    ensures Key(keys, d, s[unLo]) == med ==>
              Scanned(keys, d, Swapped(s, unLo, ltLo), med, lo, ltLo + 1, unLo + 1, unHi, gtHi, hi)
    ensures Key(keys, d, s[unLo]) < med ==> Scanned(keys, d, s, med, lo, ltLo, unLo + 1, unHi, gtHi, hi)
  {
  }

  // One step of the downward scan, which stops short of an upward scan's stop.
  lemma ScanDownStep(keys: seq<int>, d: nat, s: seq<int>, med: int, lo: int, ltLo: int, unLo: int, unHi: int, gtHi: int, hi: int)
    requires Scanned(keys, d, s, med, lo, ltLo, unLo, unHi, gtHi, hi) && unLo <= unHi
    ensures Key(keys, d, s[unHi]) == med ==>
              Scanned(keys, d, Swapped(s, unHi, gtHi), med, lo, ltLo, unLo, unHi - 1, gtHi - 1, hi)
    ensures Key(keys, d, s[unHi]) > med ==> Scanned(keys, d, s, med, lo, ltLo, unLo, unHi - 1, gtHi, hi)
    ensures Key(keys, d, s[unLo]) > med && Key(keys, d, s[unHi]) == med && unLo < unHi ==>
              Swapped(s, unHi, gtHi)[unLo] == s[unLo]
  {
  }

  // Exchanging a large element on the left with a small one on the right.
  lemma ScanSwapStep(keys: seq<int>, d: nat, s: seq<int>, med: int, lo: int, ltLo: int, unLo: int, unHi: int, gtHi: int, hi: int)
    requires Scanned(keys, d, s, med, lo, ltLo, unLo, unHi, gtHi, hi) && unLo <= unHi
    requires Key(keys, d, s[unLo]) > med > Key(keys, d, s[unHi])
    ensures unLo < unHi
    ensures Scanned(keys, d, Swapped(s, unLo, unHi), med, lo, ltLo, unLo + 1, unHi - 1, gtHi, hi)
  {
  }

  method ScanUp(a: array<int>, keys: seq<int>, d: nat, med: int, lo: int, ltLo0: int, unLo0: int, unHi: int, gtHi: int, hi: int,
                ghost start: seq<int>)
    returns (ltLo: int, unLo: int)
    requires Scanned(keys, d, a[..], med, lo, ltLo0, unLo0, unHi, gtHi, hi) && unLo0 <= unHi + 1
    requires PermIn(start, a[..], lo, hi + 1)
    modifies a
    ensures Scanned(keys, d, a[..], med, lo, ltLo, unLo, unHi, gtHi, hi) && unLo0 <= unLo <= unHi + 1
    ensures unLo <= unHi ==> 0 <= unLo < a.Length && 0 <= a[unLo] && a[unLo] + d < |keys| && Key(keys, d, a[unLo]) > med
    ensures PermIn(start, a[..], lo, hi + 1)
  {
    hide PermIn, Scanned;
    ltLo, unLo := ltLo0, unLo0;
    while true
      invariant Scanned(keys, d, a[..], med, lo, ltLo, unLo, unHi, gtHi, hi) && unLo0 <= unLo <= unHi + 1
      invariant PermIn(start, a[..], lo, hi + 1)
      decreases unHi - unLo
    {
      ScanBounds(keys, d, a[..], med, lo, ltLo, unLo, unHi, gtHi, hi);
      if unLo > unHi { break; }
      ScanUpStep(keys, d, a[..], med, lo, ltLo, unLo, unHi, gtHi, hi);
      var n := Key(keys, d, a[unLo]) - med;
      if n == 0 {
        SwappedIn(start, a[..], unLo, ltLo, lo, hi);
        Swap(a, unLo, ltLo);
        ltLo, unLo := ltLo + 1, unLo + 1;
        continue;
      }
      if n > 0 { break; }
      unLo := unLo + 1;
    }
  }

  method ScanDown(a: array<int>, keys: seq<int>, d: nat, med: int, lo: int, ltLo: int, unLo: int, unHi0: int, gtHi0: int, hi: int,
                  ghost start: seq<int>)
    returns (gtHi: int, unHi: int)
    requires Scanned(keys, d, a[..], med, lo, ltLo, unLo, unHi0, gtHi0, hi) && unLo <= unHi0 + 1
    requires unLo <= unHi0 ==> 0 <= unLo < a.Length && 0 <= a[unLo] && a[unLo] + d < |keys| && Key(keys, d, a[unLo]) > med
    requires PermIn(start, a[..], lo, hi + 1)
    modifies a
    ensures Scanned(keys, d, a[..], med, lo, ltLo, unLo, unHi, gtHi, hi) && unLo <= unHi + 1 && unHi <= unHi0
    ensures unLo <= unHi ==>
              && 0 <= unLo < a.Length && 0 <= a[unLo] && a[unLo] + d < |keys|
              && 0 <= unHi < a.Length && 0 <= a[unHi] && a[unHi] + d < |keys|
              && Key(keys, d, a[unLo]) > med > Key(keys, d, a[unHi])
    ensures PermIn(start, a[..], lo, hi + 1)
  {
    hide PermIn, Scanned;
    gtHi, unHi := gtHi0, unHi0;
    while true
      invariant Scanned(keys, d, a[..], med, lo, ltLo, unLo, unHi, gtHi, hi) && unLo <= unHi + 1 && unHi <= unHi0
      invariant unLo <= unHi ==> 0 <= unLo < a.Length && 0 <= a[unLo] && a[unLo] + d < |keys| && Key(keys, d, a[unLo]) > med
      invariant PermIn(start, a[..], lo, hi + 1)
      decreases unHi - unLo
    {
      ScanBounds(keys, d, a[..], med, lo, ltLo, unLo, unHi, gtHi, hi);
      if unLo > unHi { break; }
      ScanDownStep(keys, d, a[..], med, lo, ltLo, unLo, unHi, gtHi, hi);
      var n := Key(keys, d, a[unHi]) - med;
      if n == 0 {
        SwappedIn(start, a[..], unHi, gtHi, lo, hi);
        ghost var was := a[..];
        Swap(a, unHi, gtHi);
        assert unLo < unHi ==> a[..][unLo] == was[unLo];
        gtHi, unHi := gtHi - 1, unHi - 1;
        continue;
      }
      if n < 0 { break; }
      unHi := unHi - 1;
    }
  }

  // fvswap / mvswap: the entries of two disjoint ranges of length n exchanged.
  ghost predicate Exchanged(s: seq<int>, t: seq<int>, p1: int, p2: int, n: int) {
    && |s| == |t| && 0 <= p1 && 0 <= n && p1 + n <= p2 && p2 + n <= |s|
    && (forall k :: p1 <= k < p1 + n ==> t[k] == s[k - p1 + p2])
    && (forall k :: p2 <= k < p2 + n ==> t[k] == s[k - p2 + p1])
    && (forall k :: 0 <= k < |s| && !(p1 <= k < p1 + n) && !(p2 <= k < p2 + n) ==> t[k] == s[k])
  }

  lemma ExchangeStep(s: seq<int>, t: seq<int>, p1: int, p2: int, n: int, q1: int, q2: int, k: int)
    requires Exchanged(s, t, p1, p2, n) && q1 == p1 + n && q2 == p2 + n && k == n + 1 && q1 < p2 && q2 < |s|
    ensures Exchanged(s, Swapped(t, q1, q2), p1, p2, k)
  {
  }

  method VecSwap(a: array<int>, p1: int, p2: int, n: int, ghost lo: int, ghost hi: int, ghost start: seq<int>)
    requires 0 <= n && 0 <= lo <= p1 && p1 + n <= p2 && p2 + n <= hi + 1 <= a.Length
    requires PermIn(start, a[..], lo, hi + 1)
    modifies a
    ensures Exchanged(old(a[..]), a[..], p1, p2, n)
    ensures PermIn(start, a[..], lo, hi + 1)
  {
    assert Exchanged(a[..], a[..], p1, p2, 0);
    hide PermIn, Exchanged;
    var yyp1, yyp2, yyn := p1, p2, n;
    ghost var done := 0;
    while yyn > 0
      invariant 0 <= yyn && done == n - yyn && yyp1 == p1 + done && yyp2 == p2 + done
      invariant Exchanged(old(a[..]), a[..], p1, p2, done)
      invariant PermIn(start, a[..], lo, hi + 1)
    {
      ghost var more := done + 1;
      SwappedIn(start, a[..], yyp1, yyp2, lo, hi);
      ExchangeStep(old(a[..]), a[..], p1, p2, done, yyp1, yyp2, more);
      Swap(a, yyp1, yyp2);
      yyp1, yyp2, yyn, done := yyp1 + 1, yyp2 + 1, yyn - 1, more;
    }
  }

  function Min(a: int, b: int): int {
    if a < b then a else b
  }

  ghost predicate HasKey(keys: seq<int>, d: nat, s: seq<int>, med: int, lo: int, hi: int) {
    Valid(keys, d, s, lo, hi) && exists k :: lo <= k <= hi && Key(keys, d, s[k]) == med
  }

  // The left ends are gathered: < = on the left, > = still on the right.
  ghost predicate LeftGathered(keys: seq<int>, d: nat, s: seq<int>, med: int, lo: int, ltLo: int, unLo: int, gtHi: int, hi: int) {
    && Valid(keys, d, s, lo, hi) && lo <= ltLo <= unLo <= gtHi + 1 <= hi + 1
    && (forall k :: lo <= k < lo + unLo - ltLo ==> Key(keys, d, s[k]) < med)
    && (forall k :: lo + unLo - ltLo <= k < unLo ==> Key(keys, d, s[k]) == med)
    && (forall k :: unLo <= k <= gtHi ==> Key(keys, d, s[k]) > med)
    && (forall k :: gtHi < k <= hi ==> Key(keys, d, s[k]) == med)
  }

  lemma GatherLeft(keys: seq<int>, d: nat, s: seq<int>, t: seq<int>, med: int, lo: int, ltLo: int, unLo: int, unHi: int, gtHi: int, hi: int,
                   from: int, n: int)
    requires Scanned(keys, d, s, med, lo, ltLo, unLo, unHi, gtHi, hi) && unHi == unLo - 1
    requires Exchanged(s, t, lo, from, n) && n == Min(ltLo - lo, unLo - ltLo) && from == unLo - n
    requires Valid(keys, d, t, lo, hi)
    ensures LeftGathered(keys, d, t, med, lo, ltLo, unLo, gtHi, hi)
  {
  }

  lemma GatherRight(keys: seq<int>, d: nat, s: seq<int>, t: seq<int>, med: int, lo: int, ltLo: int, unLo: int, gtHi: int, hi: int,
                    from: int, n: int, below: int, above: int)
    requires LeftGathered(keys, d, s, med, lo, ltLo, unLo, gtHi, hi)
    requires Exchanged(s, t, unLo, from, n) && n == Min(hi - gtHi, gtHi - unLo + 1) && from == hi - n + 1
    requires below == lo + unLo - ltLo - 1 && above == hi - (gtHi - unLo + 1) + 1
    requires Valid(keys, d, t, lo, hi)
    requires HasKey(keys, d, t, med, lo, hi)
    ensures Parted(keys, d, t, med, lo, below, above, hi)
  {
    var k0 :| lo <= k0 <= hi && Key(keys, d, t[k0]) == med;
    var m := hi - (gtHi - unLo + 1) + 1;
    assert forall k :: m <= k <= hi ==> Key(keys, d, t[k]) > med;
    assert forall k :: unLo <= k < m ==> Key(keys, d, t[k]) == med;
    assert forall k :: lo <= k < unLo ==> t[k] == s[k];
  }

  lemma PivotFound(keys: seq<int>, d: nat, start: seq<int>, s: seq<int>, med: int, lo: int, hi: int)
    requires PermIn(start, s, lo, hi + 1) && HasKey(keys, d, start, med, lo, hi) && Valid(keys, d, s, lo, hi)
    ensures HasKey(keys, d, s, med, lo, hi)
  {
    var k :| lo <= k <= hi && Key(keys, d, start[k]) == med;
    var p := PermInFrom(s, start, lo, hi + 1, k);
  }

  method Gather(a: array<int>, keys: seq<int>, d: nat, med: int, lo: int, ltLo: int, unLo: int, unHi: int, gtHi: int, hi: int,
                ghost start: seq<int>)
    returns (n: int, m: int)
    requires Scanned(keys, d, a[..], med, lo, ltLo, unLo, unHi, gtHi, hi) && unHi == unLo - 1
    requires PermIn(start, a[..], lo, hi + 1) && Valid(keys, d, start, lo, hi)
    requires HasKey(keys, d, start, med, lo, hi)
    modifies a
    ensures PermIn(start, a[..], lo, hi + 1)
    ensures Parted(keys, d, a[..], med, lo, n, m, hi)
  {
    ScanBounds(keys, d, a[..], med, lo, ltLo, unLo, unHi, gtHi, hi);
    hide PermIn, Exchanged, Scanned, LeftGathered, Valid, Parted, HasKey;
    n := Min(ltLo - lo, unLo - ltLo);
    var from := unLo - n;
    ghost var s := a[..];
    VecSwap(a, lo, from, n, lo, hi, start);
    ValidKept(keys, d, start, a[..], lo, hi);
    GatherLeft(keys, d, s, a[..], med, lo, ltLo, unLo, unHi, gtHi, hi, from, n);
    m := Min(hi - gtHi, gtHi - unHi);
    from := hi - m + 1;
    ghost var t, moved := a[..], m;
    VecSwap(a, unLo, from, m, lo, hi, start);
    ValidKept(keys, d, start, a[..], lo, hi);
    PivotFound(keys, d, start, a[..], med, lo, hi);
    n := lo + unLo - ltLo - 1;
    m := hi - (gtHi - unHi) + 1;
    GatherRight(keys, d, t, a[..], med, lo, ltLo, unLo, gtHi, hi, from, moved, n, m);
  }

  // One partitioning round on [lo, hi] around the key med of some element.
  method Partition(a: array<int>, keys: seq<int>, d: nat, med: int, lo: int, hi: int)
    returns (equal: bool, n: int, m: int)
    requires HasKey(keys, d, a[..], med, lo, hi)
    modifies a
    ensures PermIn(old(a[..]), a[..], lo, hi + 1) && Valid(keys, d, a[..], lo, hi)
    ensures equal ==> forall k :: lo <= k <= hi ==> Key(keys, d, a[k]) == med
    ensures !equal ==> Parted(keys, d, a[..], med, lo, n, m, hi)
  {
    var unLo, ltLo, unHi, gtHi := lo, lo, hi, hi;
    ghost var start := a[..];
    PermInRefl(start, lo, hi + 1);
    assert Scanned(keys, d, a[..], med, lo, ltLo, unLo, unHi, gtHi, hi);
    hide PermIn, Scanned, Parted, HasKey;
    n, m := lo, hi;
    while true
      invariant Scanned(keys, d, a[..], med, lo, ltLo, unLo, unHi, gtHi, hi) && unLo <= unHi + 1
      invariant PermIn(start, a[..], lo, hi + 1)
      decreases unHi - unLo
    {
      ltLo, unLo := ScanUp(a, keys, d, med, lo, ltLo, unLo, unHi, gtHi, hi, start);
      gtHi, unHi := ScanDown(a, keys, d, med, lo, ltLo, unLo, unHi, gtHi, hi, start);
      ScanBounds(keys, d, a[..], med, lo, ltLo, unLo, unHi, gtHi, hi);
      if unLo > unHi { break; }
      ScanSwapStep(keys, d, a[..], med, lo, ltLo, unLo, unHi, gtHi, hi);
      SwappedIn(start, a[..], unLo, unHi, lo, hi);
      Swap(a, unLo, unHi);
      unLo, unHi := unLo + 1, unHi - 1;
    }
    ValidKept(keys, d, start, a[..], lo, hi);
    equal := gtHi < ltLo;
    if equal {
      AllEqual(keys, d, a[..], med, lo, ltLo, unLo, unHi, gtHi, hi);
      return;
    }
    n, m := Gather(a, keys, d, med, lo, ltLo, unLo, unHi, gtHi, hi, start);
    ValidKept(keys, d, start, a[..], lo, hi);
  }

  lemma AllEqual(keys: seq<int>, d: nat, s: seq<int>, med: int, lo: int, ltLo: int, unLo: int, unHi: int, gtHi: int, hi: int)
    requires Scanned(keys, d, s, med, lo, ltLo, unLo, unHi, gtHi, hi) && gtHi < ltLo
    ensures Valid(keys, d, s, lo, hi)
    ensures forall k :: lo <= k <= hi ==> Key(keys, d, s[k]) == med
  {
  }
}
