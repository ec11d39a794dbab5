// mainQSort3: three-way string quicksort of one small bucket, on an explicit stack.
module MainQSort {
  import opened Perms
  import opened Powers
  import opened Rotations
  import opened MainCompare
  import opened MainSimpleSort
  import opened Partition3
  import opened SegmentStack

  // The median of three symbols.
  method Mmed3(a0: byte, b0: byte, c: byte) returns (m: byte)
    ensures m == a0 || m == b0 || m == c
    ensures (a0 <= m || b0 <= m) && (b0 <= m || c <= m) && (a0 <= m || c <= m)
    ensures (a0 >= m || b0 >= m) && (b0 >= m || c >= m) && (a0 >= m || c >= m)
  {
    var a, b := a0, b0;
    if a > b {
      a, b := b, a;
    }
    if b > c {
      b := c;
      if a > b {
        b := a;
      }
    }
    return b;
  }

  ghost function LeOrder(b: seq<byte>): (int, int) -> bool {
    (x, y) => Le(b, x, y)
  }

  // ---- what a partition tells about rotations ----

  lemma KeySymbol(b: seq<byte>, block: seq<byte>, d: nat, x: int)
    requires Extended(b, block) && 0 <= x < |b| && d <= 15
    ensures x + d < |block| && Key(block, d, x) == b[Shift(x, d, |b|)]
  {
  }

  // A smaller symbol after d common ones settles the order; an equal one adds to them.
  lemma KeyDecides(b: seq<byte>, block: seq<byte>, d: nat, x: int, y: int)
    requires Extended(b, block) && 0 <= x < |b| && 0 <= y < |b| && d <= 15 && Cmp(b, x, y, d) == 0
    ensures x + d < |block| && y + d < |block|
    ensures Key(block, d, x) < Key(block, d, y) ==> Le(b, x, y)
    ensures Key(block, d, x) == Key(block, d, y) ==> Cmp(b, x, y, d + 1) == 0
  {
    KeySymbol(b, block, d, x);
    KeySymbol(b, block, d, y);
    CmpAdd(b, x, y, d, 1);
    if Key(block, d, x) < Key(block, d, y) {
      CmpExtend(b, x, y, d + 1, |b|);
    }
  }

  lemma PrefixValid(b: seq<byte>, block: seq<byte>, s: seq<int>, lo: int, hi: int, d: nat)
    requires Extended(b, block) && Prefix(b, s, lo, hi, d)
    ensures Valid(block, d, s, lo, hi)
  {
  }

  // The three parts of a partitioned range: in order among each other, and the middle one
  // agrees in one symbol more.
  lemma PartsOrdered(b: seq<byte>, block: seq<byte>, d: nat, t: seq<int>, med: int, l: int, n: int, m: int, h: int)
    requires Extended(b, block) && Prefix(b, t, l, h, d) && d <= 14 && Parted(block, d, t, med, l, n, m, h)
    ensures Prefix(b, t, l, n, d) && Prefix(b, t, n + 1, m - 1, d + 1) && Prefix(b, t, m, h, d)
    ensures forall i, j :: l <= i < j <= h && Part(i, n, m) != Part(j, n, m) ==> Le(b, t[i], t[j])
  {
    forall i, j | l <= i < j <= h && Part(i, n, m) != Part(j, n, m) ensures Le(b, t[i], t[j]) {
      KeyDecides(b, block, d, t[i], t[j]);
    }
    forall i, j | n + 1 <= i <= m - 1 && n + 1 <= j <= m - 1 ensures Cmp(b, t[i], t[j], d + 1) == 0 {
      KeyDecides(b, block, d, t[i], t[j]);
    }
  }

  function Part(k: int, n: int, m: int): int {
    if k <= n then 0 else if k < m then 1 else 2
  }

  lemma AllEqualDeeper(b: seq<byte>, block: seq<byte>, d: nat, t: seq<int>, med: int, l: int, h: int)
    requires Extended(b, block) && Prefix(b, t, l, h, d) && d <= 14
    requires Valid(block, d, t, l, h) && forall k :: l <= k <= h ==> Key(block, d, t[k]) == med
    ensures Prefix(b, t, l, h, d + 1)
  {
    forall i, j | l <= i <= h && l <= j <= h ensures Cmp(b, t[i], t[j], d + 1) == 0 {
      KeyDecides(b, block, d, t[i], t[j]);
    }
  }

  // ---- the three parts in stack order ----

  // The parts in some order, largest first.
  ghost predicate Thirds(parts: seq<Seg>, lo: int, n: int, m: int, hi: int, d: int) {
    var L, M, R := Seg(lo, n, d), Seg(n + 1, m - 1, d + 1), Seg(m, hi, d);
    && (parts == [L, R, M] || parts == [L, M, R] || parts == [R, L, M] || parts == [R, M, L] || parts == [M, L, R] || parts == [M, R, L])
    && parts[0].Size() >= parts[1].Size() >= parts[2].Size()
  }

  method SortParts(lo: int, n: int, m: int, hi: int, d: int) returns (parts: seq<Seg>)
    ensures Thirds(parts, lo, n, m, hi, d)
  {
    var p0, p1, p2 := Seg(lo, n, d), Seg(m, hi, d), Seg(n + 1, m - 1, d + 1);
    if p0.Size() < p1.Size() {
      p0, p1 := p1, p0;
    }
    if p1.Size() < p2.Size() {
      p1, p2 := p2, p1;
    }
    if p0.Size() < p1.Size() {
      p0, p1 := p1, p0;
    }
    parts := [p0, p1, p2];
  }

  function InSeg(g: Seg, k: int): bool {
    g.lo <= k <= g.hi
  }

  ghost function Which(parts: seq<Seg>, k: int): int
    requires |parts| == 3
  {
    if InSeg(parts[0], k) then 0 else if InSeg(parts[1], k) then 1 else 2
  }

  lemma ThirdsCover(parts: seq<Seg>, lo: int, n: int, m: int, hi: int, d: int)
    requires Thirds(parts, lo, n, m, hi, d) && lo - 1 <= n < m - 1 && m <= hi + 1
    ensures |parts| == 3
    ensures forall q :: 0 <= q < 3 ==> lo <= parts[q].lo && parts[q].hi <= hi && parts[q].Size() >= 0 && d <= parts[q].d <= d + 1
    ensures forall q, k :: 0 <= q < 3 && lo <= k <= hi ==> (Which(parts, k) == q <==> InSeg(parts[q], k))
    ensures forall i, j :: lo <= i <= hi && lo <= j <= hi ==> (Which(parts, i) == Which(parts, j) <==> Part(i, n, m) == Part(j, n, m))
    ensures parts[0].Size() + parts[1].Size() + parts[2].Size() == hi - lo + 1
    ensures parts[0].Size() >= parts[1].Size() >= parts[2].Size()
    ensures forall q :: 0 <= q < 3 ==> parts[q] == Seg(lo, n, d) || parts[q] == Seg(n + 1, m - 1, d + 1) || parts[q] == Seg(m, hi, d)
  {
  }

  // ---- the main loop's state ----

  // Entry p of the stack is at most the whole range halved p / 2 times.
  ghost predicate Narrowing(stack: seq<Seg>, n: nat) {
    forall p :: 0 <= p < |stack| ==> stack[p].Size() <= Halved(n, p / 2)
  }

  ghost predicate Prefixes(b: seq<byte>, s: seq<int>, stack: seq<Seg>) {
    forall p :: 0 <= p < |stack| ==> 0 <= stack[p].d <= 15 && Prefix(b, s, stack[p].lo, stack[p].hi, stack[p].d)
  }

  ghost predicate Sorting(b: seq<byte>, start: seq<int>, s: seq<int>, stack: seq<Seg>, owner: seq<int>, lo: int, hi: int) {
    && 0 <= lo <= hi + 1 && hi - lo + 1 < 0x8000_0000 && |s| == |owner| && |b| > OVERSHOOT
    && PermIn(start, s, lo, hi + 1)
    && Owns(stack, owner, lo, hi) && Apart(LeOrder(b), s, owner, lo, hi)
    && Prefixes(b, s, stack) && Narrowing(stack, hi - lo + 1) && |stack| <= 66
  }

  lemma SortingStart(b: seq<byte>, s: seq<int>, lo: int, hi: int, d: nat) returns (owner: seq<int>)
    requires 0 <= lo <= hi + 1 && hi - lo + 1 < 0x8000_0000 && Prefix(b, s, lo, hi, d)
    ensures Sorting(b, s, s, [Seg(lo, hi, d)], owner, lo, hi)
  {
    owner := seq(|s|, k => if lo <= k <= hi then 0 else -1);
    assert PermIn(s, s, lo, hi + 1);
  }

  // Entries other than the top keep their positions.
  lemma PrefixesKept(b: seq<byte>, s: seq<int>, t: seq<int>, stack: seq<Seg>, owner: seq<int>, lo: int, hi: int)
    requires stack != [] && Owns(stack, owner, lo, hi) && Prefixes(b, s, stack)
    requires PermIn(s, t, stack[|stack| - 1].lo, stack[|stack| - 1].hi + 1)
    ensures Prefixes(b, t, stack[..|stack| - 1])
  {
    var top := |stack| - 1;
    forall p | 0 <= p < top ensures Prefix(b, t, stack[p].lo, stack[p].hi, stack[p].d) {
      forall k | stack[p].lo <= k <= stack[p].hi ensures t[k] == s[k] {
        assert owner[k] == p;
      }
    }
  }

  // The top entry done: its positions are final.
  lemma SortingPop(b: seq<byte>, start: seq<int>, s: seq<int>, t: seq<int>, stack: seq<Seg>, owner: seq<int>, lo: int, hi: int, top: Seg)
    returns (owner': seq<int>)
    requires Sorting(b, start, s, stack, owner, lo, hi) && stack != [] && top == stack[|stack| - 1]
    requires PermIn(s, t, top.lo, top.hi + 1) && MainSimpleSort.Sorted(b, t, top.lo, top.hi)
    ensures Sorting(b, start, t, stack[..|stack| - 1], owner', lo, hi)
  {
    hide Owns, Apart, PermIn, Prefixes, Narrowing, Prefix, MainSimpleSort.Sorted;
    var rest, n := stack[..|stack| - 1], hi - lo + 1;
    TopWithin(stack, owner, lo, hi, top);
    PrefixesKept(b, s, t, stack, owner, lo, hi);
    owner' := PopOwners(b, s, t, stack, owner, lo, hi, top);
    Outside(start, s, t, lo, hi, top.lo, top.hi);
    NarrowingPop(stack, n);
    PermInLength(s, t, top.lo, top.hi);
  }

  lemma TopWithin(stack: seq<Seg>, owner: seq<int>, lo: int, hi: int, top: Seg)
    requires stack != [] && top == stack[|stack| - 1] && Owns(stack, owner, lo, hi)
    ensures lo <= top.lo && top.hi <= hi && top.Size() >= 0 && hi < |owner|
  {
  }

  lemma PermInLength(s: seq<int>, t: seq<int>, l: int, h: int)
    requires PermIn(s, t, l, h + 1)
    ensures |t| == |s|
  {
  }

  lemma NarrowingPop(stack: seq<Seg>, n: nat)
    requires stack != [] && Narrowing(stack, n)
    ensures Narrowing(stack[..|stack| - 1], n)
  {
  }

  lemma Outside(start: seq<int>, s: seq<int>, t: seq<int>, lo: int, hi: int, l: int, h: int)
    requires PermIn(start, s, lo, hi + 1) && PermIn(s, t, l, h + 1) && 0 <= lo <= l && h <= hi < |s|
    ensures PermIn(start, t, lo, hi + 1)
  {
    PermInWiden(s, t, l, h + 1, lo, hi + 1);
    PermInTrans(start, s, t, lo, hi + 1);
  }

  lemma PopOwners(b: seq<byte>, s: seq<int>, t: seq<int>, stack: seq<Seg>, owner: seq<int>, lo: int, hi: int, top: Seg)
    returns (owner': seq<int>)
    requires stack != [] && top == stack[|stack| - 1] && Owns(stack, owner, lo, hi) && Apart(LeOrder(b), s, owner, lo, hi)
    requires PermIn(s, t, top.lo, top.hi + 1) && MainSimpleSort.Sorted(b, t, top.lo, top.hi)
    ensures |owner'| == |owner| && Owns(stack[..|stack| - 1], owner', lo, hi) && Apart(LeOrder(b), t, owner', lo, hi)
  {
    var f := (k: int) => -1;
    owner' := Reown(owner, top.lo, top.hi, f);
    OwnsReplace(stack, owner, lo, hi, [], f);
    assert stack[..|stack| - 1] + [] == stack[..|stack| - 1];
    Regroup(LeOrder(b), s, t, owner, owner', lo, hi, top.lo, top.hi, |stack| - 1);
  }

  // The top entry replaced by its three parts.
  lemma SortingDivide(b: seq<byte>, block: seq<byte>, start: seq<int>, s: seq<int>, t: seq<int>, stack: seq<Seg>, owner: seq<int>, lo: int, hi: int,
                      top: Seg, med: int, n: int, m: int, parts: seq<Seg>)
    returns (owner': seq<int>)
    requires Sorting(b, start, s, stack, owner, lo, hi) && stack != [] && top == stack[|stack| - 1] && top.d <= 14
    requires Extended(b, block) && PermIn(s, t, top.lo, top.hi + 1) && Parted(block, top.d, t, med, top.lo, n, m, top.hi)
    requires Thirds(parts, top.lo, n, m, top.hi, top.d) && top.hi - top.lo + 1 >= 2
    ensures Sorting(b, start, t, stack[..|stack| - 1] + parts, owner', lo, hi)
  {
    hide Owns, Apart, PermIn, Prefixes, Narrowing, Prefix, Thirds, Parted, Halved, Which, Part;
    var p, size := |stack| - 1, hi - lo + 1;
    TopWithin(stack, owner, lo, hi, top);
    TopPrefix(b, s, stack, top);
    PermInLength(s, t, top.lo, top.hi);
    PartedBounds(block, top.d, t, med, top.lo, n, m, top.hi);
    ThirdsCover(parts, top.lo, n, m, top.hi, top.d);
    PrefixKept(b, s, t, top.lo, top.hi, top.d);
    PartsOrdered(b, block, top.d, t, med, top.lo, n, m, top.hi);
    PrefixesKept(b, s, t, stack, owner, lo, hi);
    PrefixesMore(b, t, stack[..p], parts, top.lo, n, m, top.hi, top.d);
    owner' := DivideOwners(b, s, t, stack, owner, lo, hi, top, n, m, parts);
    Outside(start, s, t, lo, hi, top.lo, top.hi);
    NarrowingDivide(stack, parts, size);
  }

  lemma TopPrefix(b: seq<byte>, s: seq<int>, stack: seq<Seg>, top: Seg)
    requires stack != [] && top == stack[|stack| - 1] && Prefixes(b, s, stack)
    ensures 0 <= top.d <= 15 && Prefix(b, s, top.lo, top.hi, top.d)
  {
  }

  lemma PartedBounds(block: seq<byte>, d: nat, t: seq<int>, med: int, l: int, n: int, m: int, h: int)
    requires Parted(block, d, t, med, l, n, m, h)
    ensures l - 1 <= n < m - 1 && m <= h + 1 && 0 <= l && h < |t|
  {
  }

  lemma PrefixesMore(b: seq<byte>, t: seq<int>, rest: seq<Seg>, parts: seq<Seg>, lo: int, n: int, m: int, hi: int, d: int)
    requires Prefixes(b, t, rest) && 0 <= d <= 14 && |parts| == 3
    requires Prefix(b, t, lo, n, d) && Prefix(b, t, n + 1, m - 1, d + 1) && Prefix(b, t, m, hi, d)
    requires forall q :: 0 <= q < 3 ==> parts[q] == Seg(lo, n, d) || parts[q] == Seg(n + 1, m - 1, d + 1) || parts[q] == Seg(m, hi, d)
    ensures Prefixes(b, t, rest + parts)
  {
    hide Prefix;
    forall p | 0 <= p < |rest| + 3 ensures 0 <= (rest + parts)[p].d <= 15
      && Prefix(b, t, (rest + parts)[p].lo, (rest + parts)[p].hi, (rest + parts)[p].d)
    {
      var q := p - |rest|;
      assert (rest + parts)[p] == if q < 0 then rest[p] else parts[q];
    }
  }

  lemma DivideOwners(b: seq<byte>, s: seq<int>, t: seq<int>, stack: seq<Seg>, owner: seq<int>, lo: int, hi: int,
                     top: Seg, n: int, m: int, parts: seq<Seg>)
    returns (owner': seq<int>)
    requires stack != [] && top == stack[|stack| - 1] && Owns(stack, owner, lo, hi) && Apart(LeOrder(b), s, owner, lo, hi)
    requires PermIn(s, t, top.lo, top.hi + 1) && |parts| == 3 && |s| == |owner|
    requires forall q :: 0 <= q < 3 ==> top.lo <= parts[q].lo && parts[q].hi <= top.hi && parts[q].Size() >= 0
    requires forall q, k :: 0 <= q < 3 && top.lo <= k <= top.hi ==> (Which(parts, k) == q <==> InSeg(parts[q], k))
    requires forall i, j :: top.lo <= i <= top.hi && top.lo <= j <= top.hi ==> (Which(parts, i) == Which(parts, j) <==> Part(i, n, m) == Part(j, n, m))
    requires forall i, j :: top.lo <= i < j <= top.hi && Part(i, n, m) != Part(j, n, m) ==> 0 <= i && j < |t| && Le(b, t[i], t[j])
    ensures |owner'| == |owner| && Owns(stack[..|stack| - 1] + parts, owner', lo, hi) && Apart(LeOrder(b), t, owner', lo, hi)
  {
    var p := |stack| - 1;
    var f := (k: int) => p + Which(parts, k);
    owner' := Reown(owner, top.lo, top.hi, f);
    OwnsReplace(stack, owner, lo, hi, parts, f);
    forall i, j | top.lo <= i < j <= top.hi && (owner'[i] != owner'[j] || owner'[i] < 0) ensures LeOrder(b)(t[i], t[j]) {
      assert Which(parts, i) != Which(parts, j);
    }
    Regroup(LeOrder(b), s, t, owner, owner', lo, hi, top.lo, top.hi, p);
  }

  // Largest part first: the second is at most half, the third at most a third of the range.
  lemma NarrowingDivide(stack: seq<Seg>, parts: seq<Seg>, n: nat)
    requires stack != [] && |parts| == 3 && Narrowing(stack, n) && n < 0x8000_0000
    requires 2 <= stack[|stack| - 1].Size() == parts[0].Size() + parts[1].Size() + parts[2].Size()
    requires parts[0].Size() >= parts[1].Size() >= parts[2].Size() >= 0
    ensures Narrowing(stack[..|stack| - 1] + parts, n) && |stack| <= 62
  {
    var p := |stack| - 1;
    var k := p / 2;
    var size := stack[p].Size();
    HalvedGone(n, k);
    assert parts[1].Size() <= size / 2 && parts[2].Size() <= size / 2;
    assert (p + 1) / 2 == k || (p + 1) / 2 == k + 1;
    assert (p + 2) / 2 == k + 1;
    assert size / 2 <= Halved(n, k + 1);
    forall q | 0 <= q < p + 3 ensures (stack[..p] + parts)[q].Size() <= Halved(n, q / 2) {
      if q < p {
        assert (stack[..p] + parts)[q] == stack[q];
      }
    }
  }

  lemma SortingTop(b: seq<byte>, block: seq<byte>, start: seq<int>, s: seq<int>, stack: seq<Seg>, owner: seq<int>, lo: int, hi: int, top: Seg)
    requires Sorting(b, start, s, stack, owner, lo, hi) && stack != [] && top == stack[|stack| - 1] && Extended(b, block)
    ensures 0 <= top.lo <= top.hi + 1 <= |s| && 0 <= top.d <= 15 && Prefix(b, s, top.lo, top.hi, top.d) && |stack| <= 66
    ensures lo <= top.lo && top.hi <= hi
    ensures Valid(block, top.d, s, top.lo, top.hi)
  {
    PrefixValid(b, block, s, top.lo, top.hi, top.d);
  }

  lemma SortingDone(b: seq<byte>, start: seq<int>, s: seq<int>, owner: seq<int>, lo: int, hi: int)
    requires Sorting(b, start, s, [], owner, lo, hi)
    ensures PermIn(start, s, lo, hi + 1) && MainSimpleSort.Sorted(b, s, lo, hi)
  {
    var le := LeOrder(b);
    forall i, j | lo <= i < j <= hi ensures Le(b, s[i], s[j]) {
      assert owner[i] == -1;
      assert le(s[i], s[j]);
    }
  }

  // ---- termination: positions times the levels of depth left below 16 ----

  lemma ThreeParts(parts: seq<Seg>)
    requires |parts| == 3
    ensures Work(parts, 16) == Weight(parts[0], 16) + Weight(parts[1], 16) + Weight(parts[2], 16)
  {
    var one, two := parts[..1], parts[..2];
    assert one[..0] == [] && one[0] == parts[0];
    assert two[..1] == one && two[1] == parts[1];
    hide Weight;
    assert Work(one, 16) == Weight(parts[0], 16);
    assert Work(two, 16) == Work(one, 16) + Weight(parts[1], 16);
  }

  lemma OnePart(part: Seg)
    ensures Work([part], 16) == Weight(part, 16)
  {
    assert [part][..0] == [];
  }

  lemma WeightOf(g: Seg)
    ensures Weight(g, 16) == Times(g.Size(), 16 - g.d)
  {
  }

  // One level deeper loses the size of the part.
  lemma WeightDeeper(lo: int, hi: int, d: int)
    ensures Weight(Seg(lo, hi, d + 1), 16) == Weight(Seg(lo, hi, d), 16) - (hi - lo + 1)
  {
  }

  lemma WeightThirds(lo: int, n: int, m: int, hi: int, d: int)
    ensures Weight(Seg(lo, n, d), 16) + Weight(Seg(n + 1, m - 1, d + 1), 16) + Weight(Seg(m, hi, d), 16)
         == Weight(Seg(lo, hi, d), 16) - (m - 1 - n)
  {
    hide Weight, Times;
    WeightDeeper(n + 1, m - 1, d);
    WeightOf(Seg(lo, n, d));
    WeightOf(Seg(n + 1, m - 1, d));
    WeightOf(Seg(m, hi, d));
    WeightOf(Seg(lo, hi, d));
    TimesAdd(n - lo + 1, m - 1 - n, 16 - d);
    TimesAdd(m - lo, hi - m + 1, 16 - d);
  }

  lemma WorkThirds(rest: seq<Seg>, top: Seg, n: int, m: int, parts: seq<Seg>)
    requires Thirds(parts, top.lo, n, m, top.hi, top.d) && n < m - 1
    ensures Work(rest + parts, 16) < Work(rest, 16) + Weight(top, 16)
  {
    ThreeParts(parts);
    WeightThirds(top.lo, n, m, top.hi, top.d);
    WorkAppend(rest, parts, 16);
    hide Work, Weight;
  }

  lemma WorkTop(b: seq<byte>, start: seq<int>, s: seq<int>, stack: seq<Seg>, owner: seq<int>, lo: int, hi: int)
    requires Sorting(b, start, s, stack, owner, lo, hi)
    ensures Work(stack, 16) >= 0
    ensures stack != [] ==> Split(stack)
  {
    SortingSane(b, start, s, stack, owner, lo, hi);
    hide Sorting;
    WorkNonNegative(stack, 16);
    if stack != [] {
      SplitWork(stack);
    }
  }

  // The work of the top entry and of the rest.
  ghost predicate Split(stack: seq<Seg>)
    requires stack != []
  {
    var rest, top := stack[..|stack| - 1], stack[|stack| - 1];
    0 <= Work(rest, 16) && Work(stack, 16) == Work(rest, 16) + Weight(top, 16) && Weight(top, 16) >= 0
  }

  ghost predicate Sane(stack: seq<Seg>) {
    forall p :: 0 <= p < |stack| ==> stack[p].Size() >= 0 && stack[p].d <= 16
  }

  lemma SortingSane(b: seq<byte>, start: seq<int>, s: seq<int>, stack: seq<Seg>, owner: seq<int>, lo: int, hi: int)
    requires Sorting(b, start, s, stack, owner, lo, hi)
    ensures Sane(stack)
  {
    hide Apart, PermIn, Narrowing, Prefix;
  }

  lemma SplitWork(stack: seq<Seg>)
    requires stack != [] && Sane(stack)
    ensures Split(stack)
  {
    var rest, top := stack[..|stack| - 1], stack[|stack| - 1];
    WorkNonNegative(rest, 16);
    WeightOf(top);
    hide Weight;
    TimesMonotone(0, top.Size(), 16 - top.d);
    TimesOne(16 - top.d);
  }

  // The range descends one level without being divided.
  lemma SortingDeeper(b: seq<byte>, start: seq<int>, s: seq<int>, t: seq<int>, stack: seq<Seg>, owner: seq<int>, lo: int, hi: int, top: Seg, down: Seg)
    returns (owner': seq<int>)
    requires Sorting(b, start, s, stack, owner, lo, hi) && stack != [] && top == stack[|stack| - 1] && top.d <= 14
    requires PermIn(s, t, top.lo, top.hi + 1) && Prefix(b, t, top.lo, top.hi, top.d + 1) && down == Seg(top.lo, top.hi, top.d + 1)
    ensures Sorting(b, start, t, stack[..|stack| - 1] + [down], owner', lo, hi)
    ensures Work(stack[..|stack| - 1] + [down], 16) == Work(stack[..|stack| - 1], 16) + Weight(top, 16) - top.Size()
  {
    hide Owns, Apart, PermIn, Prefixes, Narrowing, Prefix, Halved;
    var rest, p, size := stack[..|stack| - 1], |stack| - 1, hi - lo + 1;
    TopWithin(stack, owner, lo, hi, top);
    TopPrefix(b, s, stack, top);
    PrefixesKept(b, s, t, stack, owner, lo, hi);
    owner' := DeeperOwners(b, s, t, stack, owner, lo, hi, top, down);
    Outside(start, s, t, lo, hi, top.lo, top.hi);
    NarrowingSame(stack, down, size);
    PrefixesOne(b, t, rest, down);
    PermInLength(s, t, top.lo, top.hi);
    WorkAppend(rest, [down], 16);
    OnePart(down);
    WeightDeeper(top.lo, top.hi, top.d);
  }

  lemma PrefixesOne(b: seq<byte>, t: seq<int>, rest: seq<Seg>, g: Seg)
    requires Prefixes(b, t, rest) && 0 <= g.d <= 15 && Prefix(b, t, g.lo, g.hi, g.d)
    ensures Prefixes(b, t, rest + [g])
  {
    hide Prefix;
  }

  lemma NarrowingSame(stack: seq<Seg>, down: Seg, n: nat)
    requires stack != [] && Narrowing(stack, n) && down.Size() == stack[|stack| - 1].Size()
    ensures Narrowing(stack[..|stack| - 1] + [down], n)
  {
  }

  lemma DeeperOwners(b: seq<byte>, s: seq<int>, t: seq<int>, stack: seq<Seg>, owner: seq<int>, lo: int, hi: int, top: Seg, down: Seg)
    returns (owner': seq<int>)
    requires stack != [] && top == stack[|stack| - 1] && Owns(stack, owner, lo, hi) && Apart(LeOrder(b), s, owner, lo, hi)
    requires PermIn(s, t, top.lo, top.hi + 1) && down.lo == top.lo && down.hi == top.hi
    ensures |owner'| == |owner| && Owns(stack[..|stack| - 1] + [down], owner', lo, hi) && Apart(LeOrder(b), t, owner', lo, hi)
  {
    var p := |stack| - 1;
    var f := (k: int) => p;
    owner' := Reown(owner, top.lo, top.hi, f);
    OwnsReplace(stack, owner, lo, hi, [down], f);
    Regroup(LeOrder(b), s, t, owner, owner', lo, hi, top.lo, top.hi, p);
  }

  // The pivot symbol occurs in the range.
  method Pivot(ptr: array<int>, block: seq<byte>, lo: int, hi: int, d: nat) returns (med: int)
    requires 0 <= lo <= hi < ptr.Length && Valid(block, d, ptr[..], lo, hi)
    ensures HasKey(block, d, ptr[..], med, lo, hi)
  {
    var mid := (lo + hi) / 2;
    assert Key(block, d, ptr[..][lo]) == block[ptr[lo] + d];
    assert Key(block, d, ptr[..][hi]) == block[ptr[hi] + d];
    assert Key(block, d, ptr[..][mid]) == block[ptr[mid] + d];
    med := Mmed3(block[ptr[lo] + d], block[ptr[hi] + d], block[ptr[mid] + d]);
  }

  method QSort3(ptr: array<int>, block: seq<byte>, quadrant: seq<int>, nblock: int, loSt: int, hiSt: int, dSt: nat,
                budget: int, ghost b: seq<byte>)
    returns (left: int)
    requires nblock == |b| && Extended(b, block) && Quadrants(b, quadrant)
    requires 0 <= loSt <= hiSt + 1 <= ptr.Length && hiSt - loSt + 1 <= 2391484 && Prefix(b, ptr[..], loSt, hiSt, dSt)
    modifies ptr
    ensures PermIn(old(ptr[..]), ptr[..], loSt, hiSt + 1) && left <= budget
    ensures left >= 0 ==> MainSimpleSort.Sorted(b, ptr[..], loSt, hiSt)
  {
    ghost var start := ptr[..];
    var stack := [Seg(loSt, hiSt, dSt)];
    ghost var owner := SortingStart(b, start, loSt, hiSt, dSt);
    WorkTop(b, start, start, stack, owner, loSt, hiSt);
    left := budget;
    hide *;
    while |stack| > 0
      invariant Sorting(b, start, ptr[..], stack, owner, loSt, hiSt) && Work(stack, 16) >= 0 && left <= budget
      decreases Work(stack, 16), |stack|
    {
      ghost var whole, s := stack, ptr[..];
      var top := stack[|stack| - 1];
      SortingTop(b, block, start, s, whole, owner, loSt, hiSt, top);
      assert |stack| < 100 - 2;
      stack := stack[..|stack| - 1];
      if top.hi - top.lo < 20 || top.d > 14 {
        left, owner := Small(ptr, block, quadrant, nblock, stack, top, left, whole, owner, start, loSt, hiSt, b);
        if left < 0 {
          return;
        }
      } else {
        stack, owner := Divide(ptr, block, stack, top, whole, owner, start, loSt, hiSt, b);
      }
    }
    assert stack == [];
    SortingDone(b, start, ptr[..], owner, loSt, hiSt);
  }

  // A small or deep range goes to the simple sort.
  method Small(ptr: array<int>, block: seq<byte>, quadrant: seq<int>, nblock: int, ghost rest: seq<Seg>, top: Seg, budget: int,
               ghost whole: seq<Seg>, ghost owner: seq<int>, ghost start: seq<int>, ghost loSt: int, ghost hiSt: int, ghost b: seq<byte>)
    returns (left: int, ghost owner': seq<int>)
    requires nblock == |b| && Extended(b, block) && Quadrants(b, quadrant) && hiSt - loSt + 1 <= 2391484
    requires Sorting(b, start, ptr[..], whole, owner, loSt, hiSt)
    requires whole != [] && rest == whole[..|whole| - 1] && top == whole[|whole| - 1]
    modifies ptr
    ensures left <= budget && PermIn(start, ptr[..], loSt, hiSt + 1)
    ensures left >= 0 ==> Sorting(b, start, ptr[..], rest, owner', loSt, hiSt) && 0 <= Work(rest, 16) <= Work(whole, 16)
  {
    hide *;
    ghost var s := ptr[..];
    SortingTop(b, block, start, s, whole, owner, loSt, hiSt, top);
    SegSize(top);
    left := SimpleSort(ptr, block, quadrant, nblock, top.lo, top.hi, top.d, budget, b);
    SortingAbandoned(b, start, s, ptr[..], whole, owner, loSt, hiSt, top);
    owner' := owner;
    if left >= 0 {
      owner' := SortingPop(b, start, s, ptr[..], whole, owner, loSt, hiSt, top);
      WorkTop(b, start, s, whole, owner, loSt, hiSt);
      WorkRest(whole);
    }
  }

  lemma WorkRest(stack: seq<Seg>)
    requires stack != [] && Split(stack)
    ensures 0 <= Work(stack[..|stack| - 1], 16) <= Work(stack, 16)
    ensures Work(stack, 16) == Work(stack[..|stack| - 1], 16) + Weight(stack[|stack| - 1], 16)
  {
  }

  lemma SortingAbandoned(b: seq<byte>, start: seq<int>, s: seq<int>, t: seq<int>, stack: seq<Seg>, owner: seq<int>, lo: int, hi: int, top: Seg)
    requires Sorting(b, start, s, stack, owner, lo, hi) && stack != [] && top == stack[|stack| - 1] && PermIn(s, t, top.lo, top.hi + 1)
    ensures PermIn(start, t, lo, hi + 1)
  {
    hide PermIn, Apart, Prefixes, Narrowing;
    TopWithin(stack, owner, lo, hi, top);
    Outside(start, s, t, lo, hi, top.lo, top.hi);
  }

  // One partitioning round on the popped range.
  method Divide(ptr: array<int>, block: seq<byte>, rest: seq<Seg>, top: Seg, ghost whole: seq<Seg>, ghost owner: seq<int>,
                ghost start: seq<int>, ghost loSt: int, ghost hiSt: int, ghost b: seq<byte>)
    returns (stack: seq<Seg>, ghost owner': seq<int>)
    requires Sorting(b, start, ptr[..], whole, owner, loSt, hiSt) && Extended(b, block)
    requires whole != [] && rest == whole[..|whole| - 1] && top == whole[|whole| - 1] && top.hi - top.lo >= 20 && top.d <= 14
    modifies ptr
    ensures Sorting(b, start, ptr[..], stack, owner', loSt, hiSt) && 0 <= Work(stack, 16) < Work(whole, 16)
  {
    hide *;
    ghost var s := ptr[..];
    SortingTop(b, block, start, s, whole, owner, loSt, hiSt, top);
    WorkTop(b, start, s, whole, owner, loSt, hiSt);
    WorkRest(whole);
    var lo, hi, d: nat := top.lo, top.hi, top.d;
    SegSize(top);
    var med := Pivot(ptr, block, lo, hi, d);
    var equal, n, m := Partition(ptr, block, d, med, lo, hi);
    if equal {
      var down := Seg(lo, hi, d + 1);
      PrefixKept(b, s, ptr[..], lo, hi, d);
      AllEqualDeeper(b, block, d, ptr[..], med, lo, hi);
      owner' := SortingDeeper(b, start, s, ptr[..], whole, owner, loSt, hiSt, top, down);
      stack := rest + [down];
      WorkTop(b, start, ptr[..], stack, owner', loSt, hiSt);
      return;
    }
    var parts := SortParts(lo, n, m, hi, d);
    PartedBounds(block, d, ptr[..], med, lo, n, m, hi);
    WorkThirds(rest, top, n, m, parts);
    owner' := SortingDivide(b, block, start, s, ptr[..], whole, owner, loSt, hiSt, top, med, n, m, parts);
    stack := rest + parts;
    WorkTop(b, start, ptr[..], stack, owner', loSt, hiSt);
  }

  lemma SegSize(g: Seg)
    ensures g.Size() == g.hi - g.lo + 1
  {
  }
}
