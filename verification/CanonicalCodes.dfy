// Canonical Huffman codes: assigning them from the lengths, the decoder's three tables, and
// the bit-by-bit decoder that uses them.
module CanonicalCodes {
  import opened Powers
  import opened Bits
  import opened Rotations
  import opened Counting
  import HuffmanTree

  // The first code of n bits: one past the last code of n - 1 bits, one bit longer.
  function First(len: seq<byte>, n: nat): (v: nat) {
    if n == 0 then 0 else 2 * (First(len, n - 1) + Count(len, n - 1))
  }

  // Codes of one length are consecutive, in symbol order.
  function Code(len: seq<byte>, s: int): nat
    requires 0 <= s < |len|
  {
    First(len, len[s]) + Count(len[..s], len[s])
  }

  // The lengths span minLen..maxLen exactly and suit the 23-entry tables.
  ghost predicate Spans(len: seq<byte>, minLen: int, maxLen: int) {
    && 1 <= minLen <= maxLen <= 20 && |len| <= 258
    && (forall s :: 0 <= s < |len| ==> minLen <= len[s] <= maxLen)
    && Count(len, minLen) > 0
  }

  lemma {:induction false} CountAbsent(len: seq<byte>, n: int)
    requires forall s :: 0 <= s < |len| ==> len[s] != n
    ensures Count(len, n) == 0
  {
    if len != [] {
      CountAbsent(len[..|len| - 1], n);
    }
  }

  lemma {:induction false} FirstIsZero(len: seq<byte>, n: nat)
    requires forall s :: 0 <= s < |len| ==> n <= len[s]
    ensures First(len, n) == 0
  {
    if n > 0 {
      FirstIsZero(len, n - 1);
      CountAbsent(len, n - 1);
    }
  }

  // The running code never needs more than 29 bits, whatever the lengths.
  lemma {:induction false} FirstBound(len: seq<byte>, n: nat)
    ensures First(len, n) <= Times(Below(len, n), Pow2(n))
    ensures First(len, n) + Count(len, n) <= Times(|len|, Pow2(n))
  {
    hide Count, Below, Times;
    BelowStep(len, n);
    if n > 0 {
      FirstBound(len, n - 1);
      BelowStep(len, n - 1);
      var c, b, p := Count(len, n - 1), Below(len, n - 1), Pow2(n - 1);
      TimesDouble(b + c, p);
      TimesAdd(b, c, p);
      TimesCount(c, p);
    } else {
      TimesMonotone(0, Below(len, 0), 1);
      TimesOne(1);
    }
    var c, b, p := Count(len, n), Below(len, n), Pow2(n);
    TimesAdd(b, c, p);
    TimesCount(c, p);
    TimesMonotone(b + c, |len|, p);
  }

  lemma TimesCount(c: nat, p: nat)
    requires p >= 1
    ensures Times(c, p) >= c
  {
    assert c * (p - 1) >= 0;
  }

  lemma CodesAreSmall(len: seq<byte>, n: nat)
    requires |len| <= 258 && n <= 20
    ensures 0 <= First(len, n) + Count(len, n) < 0x2000_0000
  {
    FirstBound(len, n);
    Pow2Monotone(n, 20);
    Pow2Values();
    hide First, Count, Pow2;
    TimesMonotone(|len|, 258, Pow2(n));
  }

  // ---- Kraft's inequality decides whether every code fits its length ----

  // Code space used by the codes shorter than n, in units of 2^-k.
  ghost function Used(len: seq<byte>, n: nat, k: nat): nat
    requires forall i :: 0 <= i < |len| ==> len[i] <= k
  {
    if len == [] then 0 else Used(len[..|len| - 1], n, k) + if len[|len| - 1] < n then Pow2(k - len[|len| - 1]) else 0
  }

  lemma {:induction false} UsedStep(len: seq<byte>, n: nat, k: nat)
    requires (forall i :: 0 <= i < |len| ==> len[i] <= k) && n <= k
    ensures Used(len, n + 1, k) == Used(len, n, k) + Times(Count(len, n), Pow2(k - n))
  {
    if len != [] {
      var t := len[..|len| - 1];
      UsedStep(t, n, k);
      hide Times, Pow2;
      TimesAdd(Count(t, n), 1, Pow2(k - n));
      TimesOne(Pow2(k - n));
    } else {
      TimesOne(Pow2(k - n));
    }
  }

  lemma {:induction false} UsedZero(len: seq<byte>, k: nat)
    requires forall i :: 0 <= i < |len| ==> len[i] <= k
    ensures Used(len, 0, k) == 0
  {
    if len != [] {
      UsedZero(len[..|len| - 1], k);
    }
  }

  lemma {:induction false} UsedAll(len: seq<byte>, k: nat)
    requires forall i :: 0 <= i < |len| ==> len[i] <= k
    ensures Used(len, k + 1, k) == HuffmanTree.Kraft(len, k)
  {
    if len != [] {
      UsedAll(len[..|len| - 1], k);
    }
  }

  lemma {:induction false} UsedMonotone(len: seq<byte>, n: nat, m: nat, k: nat)
    requires (forall i :: 0 <= i < |len| ==> len[i] <= k) && n <= m
    ensures Used(len, n, k) <= Used(len, m, k)
  {
    if len != [] {
      UsedMonotone(len[..|len| - 1], n, m, k);
    }
  }

  // The first n-bit code marks the end of the space the shorter codes use.
  lemma {:induction false} FirstIsUsed(len: seq<byte>, n: nat, k: nat)
    requires (forall i :: 0 <= i < |len| ==> len[i] <= k) && n <= k
    ensures Times(First(len, n), Pow2(k - n)) == Used(len, n, k)
    ensures Times(First(len, n) + Count(len, n), Pow2(k - n)) == Used(len, n + 1, k)
  {
    UsedStep(len, n, k);
    hide Used, Count, Times;
    if n == 0 {
      UsedZero(len, k);
      TimesOne(Pow2(k));
    } else {
      FirstIsUsed(len, n - 1, k);
      TimesDouble(First(len, n - 1) + Count(len, n - 1), Pow2(k - n));
    }
    TimesAdd(First(len, n), Count(len, n), Pow2(k - n));
  }

  ghost predicate Fits(len: seq<byte>) {
    forall s :: 0 <= s < |len| ==> Code(len, s) < Pow2(len[s])
  }

  // Every code fits its length exactly when the lengths do not oversubscribe the code space.
  lemma FitsIffKraft(len: seq<byte>, k: nat)
    requires forall i :: 0 <= i < |len| ==> len[i] <= k
    ensures Fits(len) <==> HuffmanTree.Kraft(len, k) <= Pow2(k)
  {
    hide Count;
    if HuffmanTree.Kraft(len, k) <= Pow2(k) {
      forall s | 0 <= s < |len| ensures Code(len, s) < Pow2(len[s]) {
        KraftFits(len, k, s);
      }
    }
    if Fits(len) {
      FitsKraft(len, k, k);
    }
  }

  lemma KraftFits(len: seq<byte>, k: nat, s: int)
    requires (forall i :: 0 <= i < |len| ==> len[i] <= k) && 0 <= s < |len|
    requires HuffmanTree.Kraft(len, k) <= Pow2(k)
    ensures Code(len, s) < Pow2(len[s])
  {
    hide Count, Used, HuffmanTree.Kraft, First, Times, Pow2;
    var n: nat := len[s];
    CountBefore(len, s);
    FirstIsUsed(len, n, k);
    UsedMonotone(len, n + 1, k + 1, k);
    UsedAll(len, k);
    TimesPow(n, k - n);
    TimesStrict(First(len, n) + Count(len, n), Pow2(n), Pow2(k - n));
  }

  // Walking down from the longest length to one that occurs.
  lemma {:induction false} FitsKraft(len: seq<byte>, n: nat, k: nat)
    requires (forall i :: 0 <= i < |len| ==> len[i] <= k) && n <= k && Fits(len)
    requires Used(len, n + 1, k) == HuffmanTree.Kraft(len, k) || n == k
    ensures HuffmanTree.Kraft(len, k) <= Pow2(k)
  {
    hide Used, HuffmanTree.Kraft, First, Times, Pow2;
    UsedAll(len, k);
    FirstIsUsed(len, n, k);
    if Count(len, n) > 0 {
      var s := NthOccurrence(len, n, Count(len, n) - 1);
      assert Code(len, s) == First(len, n) + Count(len, n) - 1;
      TimesPow(n, k - n);
      TimesMonotone(First(len, n) + Count(len, n), Pow2(n), Pow2(k - n));
    } else if n > 0 {
      UsedStep(len, n, k);
      TimesOne(Pow2(k - n));
      FitsKraft(len, n - 1, k);
    } else {
      UsedStep(len, 0, k);
      UsedZero(len, k);
      TimesOne(Pow2(k));
    }
  }

  // ---- assigning codes ----

  // The running code stays far below the 32-bit limit.
  method AssignCodes(code: array<int>, len: seq<byte>, minLen: int, maxLen: int)
    requires 1 <= minLen <= maxLen <= 20 && |len| <= 258 && |len| <= code.Length
    requires forall s :: 0 <= s < |len| ==> minLen <= len[s] <= maxLen
    modifies code
    ensures forall s :: 0 <= s < |len| ==> code[s] == Code(len, s)
  {
    var vec := 0;
    FirstIsZero(len, minLen);
    hide First, Count;
    for n := minLen to maxLen + 1
      invariant vec == First(len, n)
      invariant forall s :: 0 <= s < |len| && len[s] < n ==> code[s] == Code(len, s)
    {
      assert len[..0] == [];
      CountEmpty(n);
      for i := 0 to |len|
        invariant vec == First(len, n) + Count(len[..i], n)
        invariant forall s :: 0 <= s < |len| && (len[s] < n || (len[s] == n && s < i)) ==> code[s] == Code(len, s)
      {
        CountStep(len, i, n);
        if len[i] == n {
          code[i] := vec;
          vec := vec + 1;
        }
      }
      assert len[..|len|] == len;
      CodesAreSmall(len, n);
      vec := vec * 2;
      assert vec < 0x4000_0000;
      FirstNext(len, n);
    }
  }

  lemma CountEmpty(n: int)
    ensures Count([], n) == 0
  {
  }

  lemma FirstNext(len: seq<byte>, n: nat)
    ensures First(len, n + 1) == 2 * (First(len, n) + Count(len, n))
  {
  }

  // ---- the decoder's tables ----

  // What limit, base and perm hold once built.
  ghost predicate Tables(len: seq<byte>, minLen: int, maxLen: int, limit: seq<int>, base: seq<int>, perm: seq<int>) {
    && Spans(len, minLen, maxLen) && |limit| == |base| == 23 && |perm| >= |len|
    && (forall n :: minLen <= n <= maxLen ==> limit[n] == First(len, n) + Count(len, n) - 1)
    && (forall n :: maxLen < n < 23 ==> limit[n] == 0)
    && (forall n :: minLen <= n <= maxLen ==> base[n] == First(len, n) - Below(len, n))
    && IsUnrank(len, perm[..|len|])
  }

  // The symbols before j of length i, and all shorter ones, stand at their rows.
  ghost predicate Placed(len: seq<byte>, perm: seq<int>, i: int, j: int, pp: int) {
    && |len| <= |perm| && 0 <= j <= |len| && 0 <= pp <= |len|
    && (forall s :: 0 <= s < |len| && (len[s] < i || (len[s] == i && s < j))
          ==> 0 <= Rank(len, s) < pp && perm[Rank(len, s)] == s)
  }

  lemma PlacedMore(len: seq<byte>, perm: seq<int>, i: int, j: int, j': int, pp: int, pp': int)
    requires Placed(len, perm, i, j, pp) && j < |len| && j' == j + 1 && pp' == pp + 1
    requires len[j] == i && pp == Rank(len, j) < |len|
    ensures Placed(len, perm[pp := j], i, j', pp')
  {
    hide Rank;
  }

  lemma PlacedSame(len: seq<byte>, perm: seq<int>, i: int, j: int, j': int, pp: int)
    requires Placed(len, perm, i, j, pp) && j < |len| && j' == j + 1 && len[j] != i
    ensures Placed(len, perm, i, j', pp)
  {
    hide Rank;
  }

  lemma PlacedNext(len: seq<byte>, perm: seq<int>, i: int, i': int, pp: int)
    requires Placed(len, perm, i, |len|, pp) && i' == i + 1
    ensures Placed(len, perm, i', 0, pp)
  {
    hide Rank;
  }

  // Symbols listed by length, then by number: the stable sort of the lengths.
  method FillPerm(perm: array<int>, len: seq<byte>, minLen: int, maxLen: int)
    requires 1 <= minLen <= maxLen <= 20 && |len| <= perm.Length
    requires forall s :: 0 <= s < |len| ==> minLen <= len[s] <= maxLen
    modifies perm
    ensures IsUnrank(len, perm[..|len|])
  {
    var pp, i := 0, minLen;
    BelowLowest(len, minLen);
    assert Placed(len, perm[..], minLen, 0, 0);
    hide Below, Count, Rank, Placed;
    while i <= maxLen
      invariant minLen <= i <= maxLen + 1 && pp == Below(len, i) && Placed(len, perm[..], i, 0, pp)
    {
      pp := FillLength(perm, len, i, pp);
      var next := i + 1;
      PlacedNext(len, perm[..], i, next, pp);
      i := next;
    }
    forall s | 0 <= s < |len| ensures 0 <= Rank(len, s) < |len| && perm[..|len|][Rank(len, s)] == s {
      RankInBucket(len, s);
    }
  }

  // The symbols of length i, in order.
  method FillLength(perm: array<int>, len: seq<byte>, i: int, start: int) returns (pp: int)
    requires |len| <= perm.Length && start == Below(len, i) && Placed(len, perm[..], i, 0, start)
    modifies perm
    ensures pp == Below(len, i + 1) && Placed(len, perm[..], i, |len|, pp)
  {
    pp := start;
    assert len[..0] == [];
    CountEmpty(i);
    hide Below, Count, Rank, Placed;
    var j := 0;
    while j < |len|
      invariant 0 <= j <= |len| && pp == start + Count(len[..j], i) && Placed(len, perm[..], i, j, pp)
    {
      CountStep(len, j, i);
      var next := j + 1;
      if len[j] == i {
        RankIs(len, j);
        RankInBucket(len, j);
        ghost var p, more := perm[..], pp + 1;
        perm[pp] := j;
        PlacedMore(len, p, i, j, next, pp, more);
        pp := pp + 1;
      } else {
        PlacedSame(len, perm[..], i, j, next, pp);
      }
      j := next;
    }
    assert len[..|len|] == len;
    BelowStep(len, i);
  }

  lemma RankIs(len: seq<byte>, j: int)
    requires 0 <= j < |len|
    ensures Rank(len, j) == Below(len, len[j]) + Count(len[..j], len[j])
  {
  }

  lemma {:induction false} BelowLowest(len: seq<byte>, n: int)
    requires forall s :: 0 <= s < |len| ==> n <= len[s]
    ensures Below(len, n) == 0
  {
    if len != [] {
      BelowLowest(len[..|len| - 1], n);
    }
  }

  // base[i] first counts the codes of i - 1 bits and then, summed up, those below i bits.
  method CountLengths(base: array<int>, len: seq<byte>)
    requires base.Length == 23 && forall s :: 0 <= s < |len| ==> len[s] <= 20
    modifies base
    ensures forall n :: 0 <= n < 23 ==> base[n] == Below(len, n)
  {
    for i := 0 to 23
      invariant forall n :: 0 <= n < i ==> base[n] == 0
    {
      base[i] := 0;
    }
    assert len[..0] == [];
    for i := 0 to |len|
      invariant forall n :: 0 <= n < 23 ==> base[n] == Count(len[..i], n - 1)
    {
      CountStepAll(len, i);
      hide Count;
      base[len[i] + 1] := base[len[i] + 1] + 1;
    }
    assert len[..|len|] == len;
    CountAbsent(len, -1);
    BelowLowest(len, 0);
    hide Count, Below;
    for i := 1 to 23
      invariant forall n :: 0 <= n < i ==> base[n] == Below(len, n)
      invariant forall n :: i <= n < 23 ==> base[n] == Count(len, n - 1)
    {
      BelowStep(len, i - 1);
      base[i] := base[i] + base[i - 1];
    }
  }

  // The largest code of each length.
  method MakeLimits(limit: array<int>, base: array<int>, len: seq<byte>, minLen: int, maxLen: int)
    requires limit != base && limit.Length == base.Length == 23 && Spans(len, minLen, maxLen)
    requires forall n :: 0 <= n < 23 ==> base[n] == Below(len, n)
    modifies limit
    ensures forall n :: minLen <= n <= maxLen ==> limit[n] == First(len, n) + Count(len, n) - 1
    ensures forall n :: maxLen < n < 23 ==> limit[n] == 0
  {
    FirstIsZero(len, minLen);
    hide First, Count, Below;
    for i := 0 to 23
      invariant forall n :: 0 <= n < i ==> limit[n] == 0
    {
      limit[i] := 0;
    }
    var vec := 0;
    for i := minLen to maxLen + 1
      invariant vec == First(len, i)
      invariant forall n :: minLen <= n < i ==> limit[n] == First(len, n) + Count(len, n) - 1
      invariant forall n :: i <= n < 23 ==> limit[n] == 0
    {
      BelowStep(len, i);
      vec := vec + (base[i + 1] - base[i]);
      limit[i] := vec - 1;
      vec := vec * 2;
      FirstNext(len, i);
    }
  }

  // The offset from codes to positions in perm.
  method OffsetBases(limit: array<int>, base: array<int>, len: seq<byte>, minLen: int, maxLen: int)
    requires limit != base && limit.Length == base.Length == 23 && Spans(len, minLen, maxLen)
    requires forall n :: 0 <= n < 23 ==> base[n] == Below(len, n)
    requires forall n :: minLen <= n <= maxLen ==> limit[n] == First(len, n) + Count(len, n) - 1
    modifies base
    ensures forall n :: minLen <= n <= maxLen ==> base[n] == First(len, n) - Below(len, n)
  {
    FirstIsZero(len, minLen);
    BelowLowest(len, minLen);
    var last := minLen;
    assert Offset(len, base[..], minLen, last, maxLen);
    hide First, Count, Below, Offset;
    while last < maxLen
      invariant minLen <= last <= maxLen && Offset(len, base[..], minLen, last, maxLen)
    {
      var i := last + 1;
      ghost var b := base[..];
      OffsetMore(len, b, minLen, last, i, maxLen, limit[last]);
      base[i] := (limit[last] + 1) * 2 - base[i];
      last := i;
    }
    OffsetDone(len, base[..], minLen, maxLen);
  }

  // base is final up to last and still counts shorter codes beyond.
  ghost predicate Offset(len: seq<byte>, base: seq<int>, minLen: int, last: int, maxLen: int) {
    && 0 <= minLen <= last <= maxLen < |base|
    && (forall n :: minLen <= n <= last ==> base[n] == First(len, n) - Below(len, n))
    && (forall n :: last < n <= maxLen ==> base[n] == Below(len, n))
  }

  lemma OffsetMore(len: seq<byte>, base: seq<int>, minLen: int, last: int, i: int, maxLen: int, lim: int)
    requires Offset(len, base, minLen, last, maxLen) && i == last + 1 <= maxLen && lim == First(len, last) + Count(len, last) - 1
    ensures i < |base| && Offset(len, base[i := (lim + 1) * 2 - base[i]], minLen, i, maxLen)
  {
    FirstNext(len, last);
    hide First, Count, Below;
  }

  lemma OffsetDone(len: seq<byte>, base: seq<int>, minLen: int, maxLen: int)
    requires Offset(len, base, minLen, maxLen, maxLen)
    ensures forall n :: minLen <= n <= maxLen ==> base[n] == First(len, n) - Below(len, n)
  {
  }

  method CreateDecodeTables(limit: array<int>, base: array<int>, perm: array<int>, len: seq<byte>, minLen: int, maxLen: int)
    requires limit != base && limit != perm && base != perm
    requires limit.Length == base.Length == 23 && |len| <= perm.Length && Spans(len, minLen, maxLen)
    modifies limit, base, perm
    ensures Tables(len, minLen, maxLen, limit[..], base[..], perm[..])
  {
    FillPerm(perm, len, minLen, maxLen);
    CountLengths(base, len);
    hide First, Count, Below, IsUnrank;
    MakeLimits(limit, base, len, minLen, maxLen);
    OffsetBases(limit, base, len, minLen, maxLen);
  }

  // ---- decoding ----

  datatype Outcome = Symbol(value: int, used: int) | DataError | NeedInput

  // The bits begin with the code of s.
  ghost predicate Matches(len: seq<byte>, s: int, bits: seq<bit>) {
    0 <= s < |len| && len[s] <= |bits| && Value(bits[..len[s]]) == Code(len, s)
  }

  // What decoding means: the symbol whose code comes first, or no symbol at all.
  ghost predicate Decoded(len: seq<byte>, bits: seq<bit>, r: Outcome) {
    if r.Symbol? then Matches(len, r.value, bits) && r.used == len[r.value]
    else r == (if |bits| <= 20 then NeedInput else DataError) && forall s :: !Matches(len, s, bits)
  }

  // Bits that reach the codes of one length have passed all shorter codes.
  lemma {:induction false} Passed(len: seq<byte>, bits: seq<bit>, n: nat, m: nat)
    requires n < m <= |bits| && Value(bits[..m]) >= First(len, m)
    ensures Value(bits[..n]) >= First(len, n) + Count(len, n)
    decreases m
  {
    hide Value, Count, First;
    PassedOne(len, bits, m);
    if m > n + 1 {
      Passed(len, bits, n, m - 1);
    }
  }

  lemma PassedOne(len: seq<byte>, bits: seq<bit>, m: nat)
    requires 0 < m <= |bits|
    ensures Value(bits[..m]) >= First(len, m) <==> Value(bits[..m - 1]) >= First(len, m - 1) + Count(len, m - 1)
  {
    ValueStep(bits, m - 1);
    hide Value, Count;
  }

  // The code a run of bits begins with is unique: no code is a prefix of another.
  lemma MatchUnique(len: seq<byte>, s: int, t: int, bits: seq<bit>)
    requires Matches(len, s, bits) && Matches(len, t, bits) && len[s] <= len[t]
    ensures s == t
  {
    hide Value, Count, First;
    CountBefore(len, s);
    CountBefore(len, t);
    if len[s] < len[t] {
      Passed(len, bits, len[s], len[t]);
    } else if s != t {
      RankDistinct(len, s, t);
    }
  }

  // Code s, written in its length, followed by anything.
  lemma CodeMatches(len: seq<byte>, k: nat, s: int, rest: seq<bit>)
    requires (forall i :: 0 <= i < |len| ==> len[i] <= k) && 0 <= s < |len|
    requires HuffmanTree.Kraft(len, k) <= Pow2(k)
    ensures Matches(len, s, ToBits(Code(len, s), len[s]) + rest)
  {
    FitsIffKraft(len, k);
    var v, n: nat := Code(len, s), len[s];
    ValueOfBits(v, n);
    assert (ToBits(v, n) + rest)[..n] == ToBits(v, n);
  }

  // A code followed by anything decodes to its symbol and uses up just the code.
  lemma RoundTrip(len: seq<byte>, k: nat, s: int, rest: seq<bit>, r: Outcome)
    requires (forall i :: 0 <= i < |len| ==> len[i] <= k) && 0 <= s < |len|
    requires HuffmanTree.Kraft(len, k) <= Pow2(k)
    requires Decoded(len, ToBits(Code(len, s), len[s]) + rest, r)
    ensures r == Symbol(s, len[s])
  {
    CodeMatches(len, k, s, rest);
    var bits := ToBits(Code(len, s), len[s]) + rest;
    if len[s] <= len[r.value] {
      MatchUnique(len, s, r.value, bits);
    } else {
      MatchUnique(len, r.value, s, bits);
    }
  }

  // The position in perm that the decoder reads holds a symbol whose code has been read.
  lemma Lookup(len: seq<byte>, minLen: int, maxLen: int, limit: seq<int>, base: seq<int>, perm: seq<int>,
               bits: seq<bit>, n: nat, k: int)
    requires Tables(len, minLen, maxLen, limit, base, perm) && minLen <= n <= maxLen && n <= |bits|
    requires First(len, n) <= Value(bits[..n]) <= limit[n] && k == Value(bits[..n]) - base[n]
    ensures 0 <= k < |len| && Matches(len, perm[k], bits) && len[perm[k]] == n
  {
    hide Value, Count, First, Below;
    BelowStep(len, n);
    assert Below(len, n) <= k < Below(len, n + 1) <= |len|;
    var t := perm[..|len|][k];
    UnrankRow(len, perm[..|len|], k);
    if len[t] < n {
      BelowMonotone(len, len[t] as int + 1, n);
    } else if len[t] > n {
      BelowMonotone(len, n + 1, len[t]);
    }
  }

  // The decoder has read n bits worth v and passed every shorter code.
  ghost predicate Reading(len: seq<byte>, minLen: int, maxLen: int, bits: seq<bit>, n: nat, v: int) {
    && minLen <= n <= 21 && n <= |bits| && v == Value(bits[..n])
    && (n <= maxLen + 1 ==> v >= First(len, n))
    && (n > minLen ==> v > 0)
    && (forall s :: Matches(len, s, bits) ==> len[s] >= n)
  }

  lemma ReadingStart(len: seq<byte>, minLen: int, maxLen: int, bits: seq<bit>)
    requires Spans(len, minLen, maxLen)
    ensures |bits| >= minLen ==> Reading(len, minLen, maxLen, bits, minLen, Value(bits[..minLen]))
    ensures |bits| < minLen ==> forall s :: !Matches(len, s, bits)
  {
    FirstIsZero(len, minLen);
    hide Value, Count, First;
  }

  // A value beyond the largest code of its length: no code of that length was read.
  lemma NoneOfLength(len: seq<byte>, bits: seq<bit>, n: nat, v: int, m: nat)
    requires n <= |bits| && v == Value(bits[..n]) && v >= First(len, n) + Count(len, n) && m == n + 1
    requires forall s :: Matches(len, s, bits) ==> len[s] >= n
    ensures forall s :: Matches(len, s, bits) ==> len[s] >= m
  {
    forall s | Matches(len, s, bits) ensures len[s] >= m {
      CountBefore(len, s);
    }
  }

  lemma ReadingPast(len: seq<byte>, minLen: int, maxLen: int, limit: seq<int>, base: seq<int>, perm: seq<int>,
                    bits: seq<bit>, n: nat, v: int, m: nat)
    requires Tables(len, minLen, maxLen, limit, base, perm) && Reading(len, minLen, maxLen, bits, n, v)
    requires n <= 20 && v > limit[n] && m == n + 1
    ensures forall s :: Matches(len, s, bits) ==> m <= len[s] <= |bits|
    ensures m <= |bits| ==> Reading(len, minLen, maxLen, bits, m, 2 * v + bits[n])
  {
    hide Value, Count, First, Below, IsUnrank;
    if n <= maxLen {
      NoneOfLength(len, bits, n, v, m);
      FirstNext(len, n);
    }
    MatchesFit(len, bits);
    if m <= |bits| {
      ValueStep(bits, n);
    }
    hide Matches;
  }

  lemma MatchesFit(len: seq<byte>, bits: seq<bit>)
    ensures forall s :: Matches(len, s, bits) ==> 0 <= s < |len| && len[s] <= |bits|
  {
  }

  lemma ReadingHit(len: seq<byte>, minLen: int, maxLen: int, limit: seq<int>, base: seq<int>, perm: seq<int>,
                   bits: seq<bit>, n: nat, v: int)
    requires Tables(len, minLen, maxLen, limit, base, perm) && Reading(len, minLen, maxLen, bits, n, v)
    requires n <= 20 && v <= limit[n]
    ensures n < 23 && 0 <= v - base[n] < |len|
    ensures Matches(len, perm[v - base[n]], bits) && len[perm[v - base[n]]] == n
  {
    Lookup(len, minLen, maxLen, limit, base, perm, bits, n, v - base[n]);
  }

  lemma TablesShape(len: seq<byte>, minLen: int, maxLen: int, limit: seq<int>, base: seq<int>, perm: seq<int>)
    requires Tables(len, minLen, maxLen, limit, base, perm)
    ensures |limit| == |base| == 23 && |len| <= |perm| && |len| <= 258 && 1 <= minLen <= 20
  {
  }

  lemma NoLongCode(len: seq<byte>, minLen: int, maxLen: int, bits: seq<bit>, n: nat, v: int)
    requires Spans(len, minLen, maxLen) && Reading(len, minLen, maxLen, bits, n, v) && n > 20
    ensures forall s :: !Matches(len, s, bits)
  {
  }
}
